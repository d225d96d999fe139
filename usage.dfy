/** The deterministic part of the usage renderer (src/usage.ts): the argument
    formatters and the loop that sorts the resolved arguments and the
    subcommands into option lines, positional lines, command lines and the
    entries of the one-line usage summary. */
module Usage {
  import opened Js
  import opened Types
  import opened Args

  // ---------------------------------------------------------------------------
  // Formatters (src/usage.ts:19-61)

  /** `/^no[-A-Z]/.test(name)`: the name already reads as a negation. */
  predicate NegativePrefix(name: string) {
    |name| >= 3 && name[0] == 'n' && name[1] == 'o' && (name[2] == '-' || 'A' <= name[2] <= 'Z')
  }

  /** Both spellings of a negation match (`no-color`, `noColor`); a word
      that merely starts with `no` does not (`normal`, `nocolor`), nor does
      `no` alone. */
  lemma NegativePrefixExamples()
    ensures NegativePrefix("no-color") && NegativePrefix("noColor")
    ensures !NegativePrefix("normal") && !NegativePrefix("nocolor") && !NegativePrefix("no")
  {
  }

  /** `s || ""` on an optional string. */
  function OrEmpty(s: Option<string>): (r: string)
    ensures Truthy(s) ==> r == s.value
    ensures !Truthy(s) ==> r == ""
  {
    if s.Some? then s.value else ""
  }

  /** The arguments whose rendering carries more than the bare name: an enum
      with an `options` list (even an empty one), a string with a value hint,
      and a string or positional with a default. */
  predicate Decorated(a: Arg) {
    match a.argType
    case Enum => a.options.Some?
    case String => Truthy(a.valueHint) || a.default != Undef
    case Positional => a.default != Undef
    case _ => false
  }

  /** `formatArgString(name, arg)`: the name, followed for a decorated
      argument by `=` and its options, hint or quoted default. */
  function FormatArgString(name: string, a: Arg, rt: Runtime): (r: string)
    ensures name <= r
    ensures r == name <==> !Decorated(a)
    ensures Decorated(a) ==> r[|name|] == '='
    ensures a.argType.Enum? && a.options.Some? ==> r == name + "=<" + Join(a.options.value, "|") + ">"
    ensures a.argType.String? && Truthy(a.valueHint) ==> r == name + "=<" + a.valueHint.value + ">"
    ensures (a.argType.Positional? || (a.argType.String? && !Truthy(a.valueHint))) && a.default != Undef ==>
              r == name + "=\"" + Display(a.default, rt) + "\""
  {
    match a.argType
    case Boolean => name
    case Enum => if a.options.Some? then name + "=<" + Join(a.options.value, "|") + ">" else name
    case String =>
      if Truthy(a.valueHint) then name + "=<" + a.valueHint.value + ">"
      else if a.default != Undef then name + "=\"" + Display(a.default, rt) + "\""
      else name
    case Positional => if a.default != Undef then name + "=\"" + Display(a.default, rt) + "\"" else name
    case _ => name
  }

  /** Defaults are rendered only for string and positional arguments, and not
      for a string that has a value hint. */
  lemma DefaultShownOnlyForStringAndPositional(name: string, a: Arg, d: Val, rt: Runtime)
    requires !(a.argType.String? || a.argType.Positional?) || (a.argType.String? && Truthy(a.valueHint))
    ensures FormatArgString(name, a.(default := d), rt) == FormatArgString(name, a, rt)
  {
  }

  /** Every string of `xs` with `prefix` in front. */
  function Prefixed(prefix: string, xs: seq<string>): (r: seq<string>)
    ensures |r| == |xs| && forall k :: 0 <= k < |r| ==> r[k] == prefix + xs[k]
  {
    seq(|xs|, k requires 0 <= k < |xs| => prefix + xs[k])
  }

  lemma {:induction false} JoinLast(xs: seq<string>, y: string, sep: string)
    ensures Join(xs + [y], sep) == if |xs| == 0 then y else Join(xs, sep) + sep + y
    decreases |xs|
  {
    if |xs| > 1 {
      assert (xs + [y])[1..] == xs[1..] + [y];
      JoinLast(xs[1..], y, sep);
    } else if |xs| == 1 {
      assert (xs + [y])[1..] == [y];
    }
  }

  /** `formatArgName(arg, negative)`: every alias as a short flag `-a`, in
      order, then the long flag `--name`, joined by `, `; the negative form
      puts `no-` in each. */
  function FormatArgName(a: Arg, negative: bool): (r: string)
    ensures var long := (if negative then "--no-" else "--") + a.name;
            |a.alias| == 0 ==> r == long
    ensures var long := (if negative then "--no-" else "--") + a.name;
            |long| <= |r| && r[|r| - |long|..] == long
    ensures var short := if negative then "-no-" else "-";
            var long := (if negative then "--no-" else "--") + a.name;
            |a.alias| > 0 ==> r == Join(Prefixed(short, a.alias), ", ") + ", " + long
  {
    var short := if negative then "-no-" else "-";
    var long := if negative then "--no-" else "--";
    JoinLast(Prefixed(short, a.alias), long + a.name, ", ");
    Join(Prefixed(short, a.alias) + [long + a.name], ", ")
  }

  /** The negative flag list is the positive flag list of the same argument
      renamed to `no-<name>` with every alias renamed to `no-<alias>`: the
      spellings the tokenizer reads as "set to false". */
  lemma NegativeNameForm(a: Arg)
    ensures FormatArgName(a, true) == FormatArgName(a.(name := "no-" + a.name, alias := Prefixed("no-", a.alias)), false)
  {
    var b := a.(name := "no-" + a.name, alias := Prefixed("no-", a.alias));
    assert Prefixed("-no-", a.alias) == Prefixed("-", b.alias) by {
      forall k | 0 <= k < |a.alias|
        ensures Prefixed("-no-", a.alias)[k] == Prefixed("-", b.alias)[k]
      {
        assert "-no-" + a.alias[k] == "-" + ("no-" + a.alias[k]);
      }
    }
    assert "--no-" + a.name == "--" + b.name;
  }

  // ---------------------------------------------------------------------------
  // The line-building loop of renderUsage (src/usage.ts:75-132)

  /** The accumulators of `renderUsage`. */
  datatype Lines = Lines(
    argLines: seq<(string, string)>,
    posLines: seq<(string, string, string)>,
    commandsLines: seq<(string, string)>,
    usageLine: seq<string>)

  function Backquoted(s: string): string {
    "`" + s + "`"
  }

  /** How a positional appears in the usage summary: `<NAME>` unless it is
      explicitly optional (`required: false`) or has a default. */
  function PositionalToken(a: Arg, rt: Runtime): (r: string)
    ensures r == "<" + rt.upperCase(a.name) + ">" || r == "[" + rt.upperCase(a.name) + "]"
    ensures r[0] == '<' <==> a.required != Some(false) && a.default == Undef
  {
    var name := rt.upperCase(a.name);
    if a.required != Some(false) && a.default == Undef then "<" + name + ">" else "[" + name + "]"
  }

  /** The ARGUMENTS row of a positional. */
  function PosLine(a: Arg, rt: Runtime): (string, string, string) {
    (Backquoted(FormatArgString(rt.upperCase(a.name), a, rt)), OrEmpty(a.description),
     if Truthy(a.valueHint) then "<" + a.valueHint.value + ">" else "")
  }

  /** An option that is shown as `(required)` and in the usage summary: only
      `required: true` without a default. */
  predicate RequiredOption(a: Arg) {
    a.required == Some(true) && a.default == Undef
  }

  /** The flag list of an option, decorated by `formatArgString`. */
  function ArgString(a: Arg, rt: Runtime): string {
    FormatArgString(FormatArgName(a, false), a, rt)
  }

  /** The OPTIONS row of an option. */
  function OptionLine(a: Arg, rt: Runtime): (r: (string, string))
    ensures RequiredOption(a) ==> r.0 == Backquoted(ArgString(a, rt) + " (required)")
    ensures !RequiredOption(a) ==> r.0 == Backquoted(ArgString(a, rt))
  {
    (Backquoted(ArgString(a, rt) + if RequiredOption(a) then " (required)" else ""), OrEmpty(a.description))
  }

  /** A boolean that is on by default or describes its negation gets a
      `--no-` row, unless its own name is already a negation. */
  predicate HasNegative(a: Arg) {
    a.argType.Boolean? && (a.default == Bool(true) || Truthy(a.negativeDescription)) && !NegativePrefix(a.name)
  }

  function NegativeLine(a: Arg): (string, string) {
    (Backquoted(FormatArgName(a, true)), OrEmpty(a.negativeDescription))
  }

  /** One pass of the argument loop. */
  function ArgStep(a: Arg, st: Lines, rt: Runtime): Lines {
    if a.argType.Positional? then
      st.(posLines := st.posLines + [PosLine(a, rt)], usageLine := st.usageLine + [PositionalToken(a, rt)])
    else
      st.(argLines := st.argLines + [OptionLine(a, rt)] + (if HasNegative(a) then [NegativeLine(a)] else []),
          usageLine := st.usageLine + (if RequiredOption(a) then [ArgString(a, rt)] else []))
  }

  /** The accumulators after the argument loop has seen `args`. */
  function ArgLinesOf(args: seq<Arg>, rt: Runtime): Lines
    decreases |args|
  {
    if |args| == 0 then Lines([], [], [], [])
    else ArgStep(args[|args| - 1], ArgLinesOf(args[..|args| - 1], rt), rt)
  }

  /** `meta?.hidden` of a subcommand. */
  predicate Hidden(c: Command) {
    c.meta.Some? && c.meta.value.hidden
  }

  /** `meta?.description || ""` of a subcommand. */
  function SubDescription(c: Command): string {
    if c.meta.Some? then OrEmpty(c.meta.value.description) else ""
  }

  /** The COMMANDS rows after the subcommand loop has seen `subs`. */
  function CommandsLinesOf(subs: seq<SubEntry>): seq<(string, string)>
    decreases |subs|
  {
    if |subs| == 0 then []
    else
      var e := subs[|subs| - 1];
      CommandsLinesOf(subs[..|subs| - 1]) + if Hidden(e.cmd) then [] else [(Backquoted(e.name), SubDescription(e.cmd))]
  }

  /** The names collected by the subcommand loop over `subs`. */
  function CommandNames(subs: seq<SubEntry>): seq<string>
    decreases |subs|
  {
    if |subs| == 0 then []
    else
      var e := subs[|subs| - 1];
      CommandNames(subs[..|subs| - 1]) + if Hidden(e.cmd) then [] else [e.name]
  }

  /** Everything `renderUsage` accumulates for `cmd`: the argument loop, then,
      when the `subCommands` field is given at all (an empty object counts),
      the command rows and their `a|b` segment. */
  function RenderLines(cmd: Command, rt: Runtime): Lines
    requires cmd.args.Valid()
  {
    var st := ArgLinesOf(ResolveArgs(cmd.args), rt);
    if cmd.hasSubCommands then
      st.(commandsLines := CommandsLinesOf(cmd.subCommands),
          usageLine := st.usageLine + [Join(CommandNames(cmd.subCommands), "|")])
    else st
  }

  /** The loops of `renderUsage` (src/usage.ts:80-132). */
  method RenderUsageLines(cmd: Command, rt: Runtime) returns (lines: Lines)
    requires cmd.args.Valid()
    ensures lines == RenderLines(cmd, rt)
  {
    var cmdArgs := ResolveArgs(cmd.args);
    var argLines: seq<(string, string)> := [];
    var posLines: seq<(string, string, string)> := [];
    var commandsLines: seq<(string, string)> := [];
    var usageLine: seq<string> := [];
    for i := 0 to |cmdArgs|
      invariant Lines(argLines, posLines, [], usageLine) == ArgLinesOf(cmdArgs[..i], rt)
    {
      assert cmdArgs[..i + 1][..i] == cmdArgs[..i];
      argLines, posLines, usageLine := RenderArg(cmdArgs[i], argLines, posLines, usageLine, rt);
    }
    assert cmdArgs[..|cmdArgs|] == cmdArgs;
    if cmd.hasSubCommands {
      var commandNames;
      commandsLines, commandNames := RenderCommands(cmd.subCommands);
      usageLine := usageLine + [Join(commandNames, "|")];
    }
    return Lines(argLines, posLines, commandsLines, usageLine);
  }

  /** The body of the argument loop of `renderUsage`. */
  method RenderArg(arg: Arg, argLines0: seq<(string, string)>, posLines0: seq<(string, string, string)>,
                   usageLine0: seq<string>, rt: Runtime)
    returns (argLines: seq<(string, string)>, posLines: seq<(string, string, string)>, usageLine: seq<string>)
    ensures Lines(argLines, posLines, [], usageLine) == ArgStep(arg, Lines(argLines0, posLines0, [], usageLine0), rt)
  {
    argLines, posLines, usageLine := argLines0, posLines0, usageLine0;
    if arg.argType.Positional? {
      var name := rt.upperCase(arg.name);
      posLines := posLines + [(Backquoted(FormatArgString(name, arg, rt)), OrEmpty(arg.description),
                               if Truthy(arg.valueHint) then "<" + arg.valueHint.value + ">" else "")];
      var isRequired := arg.required != Some(false) && arg.default == Undef;
      usageLine := usageLine + [if isRequired then "<" + name + ">" else "[" + name + "]"];
    } else {
      var argString := FormatArgString(FormatArgName(arg, false), arg, rt);
      var requiredHint := if arg.required == Some(true) && arg.default == Undef then " (required)" else "";
      argLines := argLines + [(Backquoted(argString + requiredHint), OrEmpty(arg.description))];
      if requiredHint != "" {
        usageLine := usageLine + [argString];
      }
      if arg.argType.Boolean? && (arg.default == Bool(true) || Truthy(arg.negativeDescription)) && !NegativePrefix(arg.name) {
        argLines := argLines + [(Backquoted(FormatArgName(arg, true)), OrEmpty(arg.negativeDescription))];
      }
    }
  }

  /** The subcommand loop of `renderUsage`: a row and a name for every
      subcommand that is not hidden. */
  method RenderCommands(subs: seq<SubEntry>) returns (commandsLines: seq<(string, string)>, commandNames: seq<string>)
    ensures commandsLines == CommandsLinesOf(subs) && commandNames == CommandNames(subs)
  {
    commandsLines, commandNames := [], [];
    for i := 0 to |subs|
      invariant commandsLines == CommandsLinesOf(subs[..i]) && commandNames == CommandNames(subs[..i])
    {
      var sub := subs[i].cmd;
      assert subs[..i + 1][..i] == subs[..i];
      if Hidden(sub) {
        continue;
      }
      commandsLines := commandsLines + [(Backquoted(subs[i].name), SubDescription(sub))];
      commandNames := commandNames + [subs[i].name];
    }
    assert subs[..|subs|] == subs;
  }

  // ---------------------------------------------------------------------------
  // What the lines contain

  /** The positional arguments of `args`, in declaration order. */
  function Positionals(args: seq<Arg>): (r: seq<Arg>)
    ensures |r| <= |args|
    decreases |args|
  {
    if |args| == 0 then []
    else
      var a := args[|args| - 1];
      Positionals(args[..|args| - 1]) + if a.argType.Positional? then [a] else []
  }

  /** How many arguments get a `--no-` row. */
  function NegativeCount(args: seq<Arg>): nat
    decreases |args|
  {
    if |args| == 0 then 0
    else NegativeCount(args[..|args| - 1]) + if HasNegative(args[|args| - 1]) then 1 else 0
  }

  /** How many options are marked `(required)`. */
  function RequiredCount(args: seq<Arg>): nat
    decreases |args|
  {
    if |args| == 0 then 0
    else
      var a := args[|args| - 1];
      RequiredCount(args[..|args| - 1]) + if !a.argType.Positional? && RequiredOption(a) then 1 else 0
  }

  function PosLines(ps: seq<Arg>, rt: Runtime): (r: seq<(string, string, string)>)
    ensures |r| == |ps| && forall k :: 0 <= k < |ps| ==> r[k] == PosLine(ps[k], rt)
  {
    seq(|ps|, k requires 0 <= k < |ps| => PosLine(ps[k], rt))
  }

  /** The ARGUMENTS rows are the positionals in declaration order; every
      other argument gives one OPTIONS row, plus one for each negative
      variant; the summary holds one entry per positional and one per
      required option. */
  lemma {:induction false} ArgLinesShape(args: seq<Arg>, rt: Runtime)
    ensures var st := ArgLinesOf(args, rt);
            st.commandsLines == [] &&
            st.posLines == PosLines(Positionals(args), rt) &&
            |st.argLines| == |args| - |Positionals(args)| + NegativeCount(args) &&
            |st.usageLine| == |Positionals(args)| + RequiredCount(args)
    decreases |args|
  {
    if |args| > 0 {
      var init, a := args[..|args| - 1], args[|args| - 1];
      var extra := if a.argType.Positional? then [a] else [];
      ArgLinesShape(init, rt);
      assert ArgLinesOf(args, rt) == ArgStep(a, ArgLinesOf(init, rt), rt);
      assert Positionals(args) == Positionals(init) + extra;
      PosLinesAppend(Positionals(init), extra, rt);
      ArgStepShape(a, ArgLinesOf(init, rt), rt);
    }
  }

  /** What one pass of the argument loop adds to each accumulator. */
  lemma ArgStepShape(a: Arg, st: Lines, rt: Runtime)
    ensures var r := ArgStep(a, st, rt);
            r.commandsLines == st.commandsLines &&
            r.posLines == st.posLines + PosLines(if a.argType.Positional? then [a] else [], rt) &&
            |r.argLines| == |st.argLines| + (if a.argType.Positional? then 0 else 1 + if HasNegative(a) then 1 else 0) &&
            |r.usageLine| == |st.usageLine| + (if a.argType.Positional? || RequiredOption(a) then 1 else 0)
  {
  }

  lemma PosLinesAppend(ps: seq<Arg>, qs: seq<Arg>, rt: Runtime)
    ensures PosLines(ps + qs, rt) == PosLines(ps, rt) + PosLines(qs, rt)
  {
  }

  /** `x` is the summary entry that argument `a` contributes. */
  predicate UsageEntryFor(a: Arg, x: string, rt: Runtime) {
    (a.argType.Positional? && x == PositionalToken(a, rt)) ||
    (!a.argType.Positional? && RequiredOption(a) && x == ArgString(a, rt))
  }

  /** The summary built by the argument loop holds exactly the tokens of the
      positionals and the flag strings of the required options. */
  lemma {:induction false} UsageLineEntries(args: seq<Arg>, rt: Runtime)
    ensures forall x :: x in ArgLinesOf(args, rt).usageLine <==>
                        exists i :: 0 <= i < |args| && UsageEntryFor(args[i], x, rt)
    decreases |args|
  {
    if |args| > 0 {
      var init := args[..|args| - 1];
      var a := args[|args| - 1];
      UsageLineEntries(init, rt);
      var before := ArgLinesOf(init, rt).usageLine;
      var after := ArgLinesOf(args, rt).usageLine;
      assert after == before + (if a.argType.Positional? then [PositionalToken(a, rt)]
                                else if RequiredOption(a) then [ArgString(a, rt)] else []);
      forall x | x in after
        ensures exists i :: 0 <= i < |args| && UsageEntryFor(args[i], x, rt)
      {
        if x in before {
          var i :| 0 <= i < |init| && UsageEntryFor(init[i], x, rt);
          assert args[i] == init[i];
        } else {
          assert UsageEntryFor(args[|args| - 1], x, rt);
        }
      }
      forall x | exists i :: 0 <= i < |args| && UsageEntryFor(args[i], x, rt)
        ensures x in after
      {
        var i :| 0 <= i < |args| && UsageEntryFor(args[i], x, rt);
        if i < |args| - 1 {
          assert init[i] == args[i];
        }
      }
    }
  }

  /** The subcommand loop lists exactly the names of the entries that are not
      hidden, each row headed by its name, in the same order. */
  lemma {:induction false} VisibleCommands(subs: seq<SubEntry>)
    ensures var names := CommandNames(subs);
            var rows := CommandsLinesOf(subs);
            |rows| == |names| &&
            (forall j :: 0 <= j < |rows| ==> rows[j].0 == Backquoted(names[j])) &&
            (forall n :: n in names <==> exists k :: 0 <= k < |subs| && subs[k].name == n && !Hidden(subs[k].cmd))
    decreases |subs|
  {
    if |subs| > 0 {
      var init := subs[..|subs| - 1];
      var e := subs[|subs| - 1];
      VisibleCommands(init);
      var names := CommandNames(subs);
      forall n | n in names
        ensures exists k :: 0 <= k < |subs| && subs[k].name == n && !Hidden(subs[k].cmd)
      {
        if n in CommandNames(init) {
          var k :| 0 <= k < |init| && init[k].name == n && !Hidden(init[k].cmd);
          assert subs[k] == init[k];
        } else {
          assert subs[|subs| - 1].name == n;
        }
      }
      forall n | exists k :: 0 <= k < |subs| && subs[k].name == n && !Hidden(subs[k].cmd)
        ensures n in names
      {
        var k :| 0 <= k < |subs| && subs[k].name == n && !Hidden(subs[k].cmd);
        if k < |subs| - 1 {
          assert init[k] == subs[k];
        }
      }
    }
  }

  lemma BackquotedInjective(x: string, y: string)
    ensures Backquoted(x) == Backquoted(y) <==> x == y
  {
    assert Backquoted(x)[1..|x| + 1] == x;
    assert Backquoted(y)[1..|y| + 1] == y;
  }

  /** A hidden subcommand whose name no other entry shares contributes
      neither a name nor a row. */
  lemma HiddenCommandOmitted(subs: seq<SubEntry>, k: nat)
    requires k < |subs| && Hidden(subs[k].cmd)
    requires forall j :: 0 <= j < |subs| && j != k ==> subs[j].name != subs[k].name
    ensures subs[k].name !in CommandNames(subs)
    ensures forall j :: 0 <= j < |CommandsLinesOf(subs)| ==> CommandsLinesOf(subs)[j].0 != Backquoted(subs[k].name)
  {
    VisibleCommands(subs);
    var rows := CommandsLinesOf(subs);
    var names := CommandNames(subs);
    forall j | 0 <= j < |rows|
      ensures rows[j].0 != Backquoted(subs[k].name)
    {
      assert names[j] in names;
      BackquotedInjective(names[j], subs[k].name);
    }
  }

  /** A given `subCommands` field always adds a summary entry after the
      arguments', the `|`-joined visible names, which is the empty string
      when every subcommand is hidden; an absent field adds nothing. */
  lemma SubcommandSegment(cmd: Command, rt: Runtime)
    requires cmd.args.Valid()
    ensures var base := ArgLinesOf(ResolveArgs(cmd.args), rt).usageLine;
            var usage := RenderLines(cmd, rt).usageLine;
            (cmd.hasSubCommands ==>
               (|usage| == |base| + 1 && usage[..|base|] == base &&
                usage[|base|] == Join(CommandNames(cmd.subCommands), "|"))) &&
            (!cmd.hasSubCommands ==> usage == base)
    ensures cmd.hasSubCommands && (forall k :: 0 <= k < |cmd.subCommands| ==> Hidden(cmd.subCommands[k].cmd)) ==>
              RenderLines(cmd, rt).usageLine[|RenderLines(cmd, rt).usageLine| - 1] == ""
  {
    VisibleCommands(cmd.subCommands);
    var names := CommandNames(cmd.subCommands);
    if |names| > 0 {
      assert names[0] in names;
    }
  }

  // ---------------------------------------------------------------------------
  // Version (src/usage.ts:136)

  /** `cmdMeta.version || parentMeta.version`: the command's own version when
      it is a non-empty string, else whatever the parent declares. */
  function UsageVersion(cmdMeta: Option<Meta>, parentMeta: Option<Meta>): (r: Option<string>)
    ensures cmdMeta.Some? && Truthy(cmdMeta.value.version) ==> r == cmdMeta.value.version
    ensures !(cmdMeta.Some? && Truthy(cmdMeta.value.version)) ==>
              r == (if parentMeta.Some? then parentMeta.value.version else None)
  {
    if cmdMeta.Some? && Truthy(cmdMeta.value.version) then cmdMeta.value.version
    else if parentMeta.Some? then parentMeta.value.version
    else None
  }

  // ---------------------------------------------------------------------------
  // The documented example (test/usage.test.ts:5-60)

  /** The "Commander" arguments: a required untyped `foo`, `bar` with alias
      `b`, a positional `pos`, an enum over `a|b` and a plain boolean. */
  const FooArg := Arg("foo", Untyped, Some("A foo"), None, [], Undef, Some(true), None, None)
  const BarArg := Arg("bar", Untyped, Some("A bar"), None, ["b"], Undef, None, None, None)
  const PosArg := Arg("pos", Positional, Some("A pos"), None, [], Undef, None, None, None)
  const EnumArg := Arg("enum", Enum, Some("An enum"), None, [], Undef, None, Some(["a", "b"]), None)
  const BooleanArg := Arg("boolean", Boolean, Some("A boolean"), None, [], Undef, None, None, None)

  lemma ArgLinesSnoc(args: seq<Arg>, a: Arg, rt: Runtime)
    ensures ArgLinesOf(args + [a], rt) == ArgStep(a, ArgLinesOf(args, rt), rt)
  {
    assert (args + [a])[..|args|] == args;
  }

  lemma FooStep(rt: Runtime)
    ensures ArgLinesOf([FooArg], rt) == Lines([("`--foo (required)`", "A foo")], [], [], ["--foo"])
  {
    assert [FooArg][..0] == [];
    assert ArgLinesOf([FooArg], rt) == ArgStep(FooArg, Lines([], [], [], []), rt);
    assert !HasNegative(FooArg) && RequiredOption(FooArg);
    FooRow(rt);
  }

  /** The OPTIONS row of the required `foo`, and its summary entry. */
  lemma FooRow(rt: Runtime)
    ensures ArgString(FooArg, rt) == "--foo"
    ensures OptionLine(FooArg, rt) == ("`--foo (required)`", "A foo")
  {
    assert ArgString(FooArg, rt) == "--foo";
    assert OptionLine(FooArg, rt).0 == Backquoted("--foo" + " (required)") == "`--foo (required)`";
  }

  lemma BarStep(rt: Runtime)
    ensures ArgLinesOf([FooArg, BarArg], rt) ==
            Lines([("`--foo (required)`", "A foo"), ("`-b, --bar`", "A bar")], [], [], ["--foo"])
  {
    FooStep(rt);
    ArgLinesSnoc([FooArg], BarArg, rt);
    assert [FooArg, BarArg] == [FooArg] + [BarArg];
    BarRow(rt);
  }

  /** The OPTIONS row of `bar` lists its alias first. */
  lemma BarRow(rt: Runtime)
    ensures OptionLine(BarArg, rt) == ("`-b, --bar`", "A bar")
  {
    BarFlags();
    assert OptionLine(BarArg, rt).0 == Backquoted("-b, --bar") == "`-b, --bar`";
  }

  lemma BarFlags()
    ensures FormatArgName(BarArg, false) == "-b, --bar"
  {
    var shorts := Prefixed("-", ["b"]);
    assert shorts[0] == "-" + "b" == "-b";
    assert shorts == ["-b"];
    assert "--" + BarArg.name == "--bar";
    assert Prefixed("-", BarArg.alias) + ["--" + BarArg.name] == ["-b", "--bar"];
    assert ["-b", "--bar"][1..] == ["--bar"];
    assert Join(["-b", "--bar"], ", ") == "-b" + ", " + Join(["--bar"], ", ");
  }

  lemma PosStep(rt: Runtime)
    requires rt.upperCase("pos") == "POS"
    ensures ArgLinesOf([FooArg, BarArg, PosArg], rt) ==
            Lines([("`--foo (required)`", "A foo"), ("`-b, --bar`", "A bar")],
                  [("`POS`", "A pos", "")], [], ["--foo", "<POS>"])
  {
    BarStep(rt);
    ArgLinesSnoc([FooArg, BarArg], PosArg, rt);
    assert [FooArg, BarArg, PosArg] == [FooArg, BarArg] + [PosArg];
    assert PositionalToken(PosArg, rt) == "<" + "POS" + ">" == "<POS>";
    assert PosLine(PosArg, rt).0 == Backquoted("POS") == "`POS`";
  }

  lemma EnumStep(rt: Runtime)
    requires rt.upperCase("pos") == "POS"
    ensures ArgLinesOf([FooArg, BarArg, PosArg, EnumArg], rt) ==
            Lines([("`--foo (required)`", "A foo"), ("`-b, --bar`", "A bar"), ("`--enum=<a|b>`", "An enum")],
                  [("`POS`", "A pos", "")], [], ["--foo", "<POS>"])
  {
    PosStep(rt);
    ArgLinesSnoc([FooArg, BarArg, PosArg], EnumArg, rt);
    assert [FooArg, BarArg, PosArg, EnumArg] == [FooArg, BarArg, PosArg] + [EnumArg];
    EnumRow(rt);
  }

  /** The OPTIONS row of the enum shows its choices. */
  lemma EnumRow(rt: Runtime)
    ensures OptionLine(EnumArg, rt) == ("`--enum=<a|b>`", "An enum")
  {
    assert ["a", "b"][1..] == ["b"];
    assert Join(["a", "b"], "|") == "a" + "|" + Join(["b"], "|");
    assert ArgString(EnumArg, rt) == "--enum=<a|b>";
    assert OptionLine(EnumArg, rt).0 == Backquoted("--enum=<a|b>") == "`--enum=<a|b>`";
  }

  /** The usage summary of the example shows the required `--foo` and the
      positional `<POS>`; the OPTIONS rows are `--foo (required)`,
      `-b, --bar`, `--enum=<a|b>` and `--boolean`, with no negative row. */
  lemma CommanderExample(rt: Runtime)
    requires rt.upperCase("pos") == "POS"
    ensures ArgLinesOf([FooArg, BarArg, PosArg, EnumArg, BooleanArg], rt) ==
            Lines([("`--foo (required)`", "A foo"), ("`-b, --bar`", "A bar"),
                   ("`--enum=<a|b>`", "An enum"), ("`--boolean`", "A boolean")],
                  [("`POS`", "A pos", "")], [], ["--foo", "<POS>"])
  {
    EnumStep(rt);
    ArgLinesSnoc([FooArg, BarArg, PosArg, EnumArg], BooleanArg, rt);
    assert [FooArg, BarArg, PosArg, EnumArg, BooleanArg] == [FooArg, BarArg, PosArg, EnumArg] + [BooleanArg];
    assert OptionLine(BooleanArg, rt).0 == Backquoted("--boolean") == "`--boolean`";
  }
}
