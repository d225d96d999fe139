/** The typed argument layer (src/args.ts): the declared schema is normalised
    into an ordered descriptor list, turned into tokenizer options, and the
    tokenizer's output is checked and completed argument by argument. */
module Args {
  import opened Js
  import opened Types
  import opened Utils
  import opened Parser

  // ---------------------------------------------------------------------------
  // resolveArgs (src/args.ts:108-120)

  /** The descriptor of one declared argument: its fields, its key as `name`,
      and its aliases as a list. */
  function Normalise(name: string, def: ArgDef): Arg {
    Arg(name, def.argType, def.description, def.valueHint, ToArray(def.alias), def.default,
        def.required, def.options, def.negativeDescription)
  }

  /** The descriptor carries the definition's fields, and `alias` is empty when
      absent, a singleton for a bare string, and the list itself otherwise. */
  predicate Describes(a: Arg, def: ArgDef) {
    a.argType == def.argType && a.description == def.description && a.valueHint == def.valueHint &&
    a.default == def.default && a.required == def.required && a.options == def.options &&
    a.negativeDescription == def.negativeDescription &&
    (def.alias.Absent? ==> a.alias == []) &&
    (def.alias.Single? ==> a.alias == [def.alias.x]) &&
    (def.alias.Array? ==> a.alias == def.alias.xs)
  }

  /** `resolveArgs(argsDef)`: one descriptor per declared key, in declaration order. */
  function ResolveArgs(defs: Dict<ArgDef>): (r: seq<Arg>)
    requires defs.Valid()
    ensures |r| == |defs.keys|
    ensures forall i :: 0 <= i < |r| ==> r[i].name == defs.keys[i] && Describes(r[i], defs.vals[defs.keys[i]])
  {
    seq(|defs.keys|, i requires 0 <= i < |defs.keys| => Normalise(defs.keys[i], defs.vals[defs.keys[i]]))
  }

  // ---------------------------------------------------------------------------
  // Tokenizer options (src/args.ts:10-51)

  /** The lists and objects of `parseOptions` that the tokenizer reads. */
  datatype Buckets = Buckets(strings: seq<string>, booleans: seq<string>,
                             alias: Dict<Arrayable<string>>, default: Dict<Val>)

  function NoBuckets(): Buckets {
    Buckets([], [], EmptyDict(), EmptyDict())
  }

  /** The bucket loop over `args[i..]`, starting from `acc`. */
  function BucketsFrom(args: seq<Arg>, i: nat, acc: Buckets): Buckets
    requires i <= |args|
    decreases |args| - i
  {
    if i == |args| then acc
    else
      var a := args[i];
      if a.argType.Positional? then BucketsFrom(args, i + 1, acc)
      else
        var strings := if a.argType.String? || a.argType.Number? then acc.strings + [a.name] else acc.strings;
        var booleans := if a.argType.Boolean? then acc.booleans + [a.name] else acc.booleans;
        var default := if a.default != Undef then acc.default.Put(a.name, a.default) else acc.default;
        BucketsFrom(args, i + 1, Buckets(strings, booleans, acc.alias.Put(a.name, Array(a.alias)), default))
  }

  function OptionsOf(b: Buckets): Options {
    Options(Array(b.booleans), Array(b.strings), Some(b.alias), Some(b.default), false)
  }

  function ParseOptionsFor(args: seq<Arg>): Options {
    OptionsOf(BucketsFrom(args, 0, NoBuckets()))
  }

  // ---------------------------------------------------------------------------
  // Reading the result (src/args.ts:56-60)

  /** A read through the result proxy: the exact key, else its camelCase
      spelling, else its kebab-case spelling (`??` skips only `undefined`). */
  function Lookup(flags: Dict<Val>, prop: string, rt: Runtime): (v: Val)
    ensures Get(flags, prop) != Undef ==> v == Get(flags, prop)
    ensures Get(flags, prop) == Undef && Get(flags, rt.camelCase(prop)) != Undef ==> v == Get(flags, rt.camelCase(prop))
    ensures Get(flags, prop) == Undef && Get(flags, rt.camelCase(prop)) == Undef ==> v == Get(flags, rt.kebabCase(prop))
  {
    var exact := Get(flags, prop);
    if exact != Undef then exact
    else
      var camel := Get(flags, rt.camelCase(prop));
      if camel != Undef then camel else Get(flags, rt.kebabCase(prop))
  }

  // ---------------------------------------------------------------------------
  // Checking each argument (src/args.ts:62-103)

  /** `options.includes(v)` on a list of strings. */
  predicate Includes(options: seq<string>, v: Val) {
    v.Str? && v.s in options
  }

  function Backticked(options: seq<string>): (r: seq<string>)
    ensures |r| == |options| && forall k :: 0 <= k < |r| ==> r[k] == "`" + options[k] + "`"
  {
    seq(|options|, k requires 0 <= k < |options| => "`" + options[k] + "`")
  }

  function MissingPositional(name: string, rt: Runtime): CliError {
    Fail("Missing required positional argument: " + rt.upperCase(name), "EARG")
  }

  function InvalidEnum(name: string, v: Val, options: seq<string>, rt: Runtime): CliError {
    Fail("Invalid value for argument: `--" + name + "` (`" + Display(v, rt) + "`). Expected one of: " +
         Join(Backticked(options), ", ") + ".", "EARG")
  }

  function InvalidNumber(name: string, v: Val, rt: Runtime): CliError {
    Fail("Invalid value for argument: `--" + name + "` (`" + Display(v, rt) + "`). Expected a number.", "EARG")
  }

  function MissingArgument(name: string): CliError {
    Fail("Missing required argument: --" + name, "EARG")
  }

  function OptionList(a: Arg): seq<string> {
    if a.options.Some? then a.options.value else []
  }

  /** The state of the checking loop: the queue of leftovers not yet taken by a
      positional, and the result object. */
  datatype Checked = Checked(queue: seq<Val>, flags: Dict<Val>)

  /** One pass of the checking loop. */
  function CheckArg(a: Arg, c: Checked, rt: Runtime): Result<Checked, CliError> {
    match a.argType
    case Positional =>
      var next := if |c.queue| > 0 then c.queue[0] else Undef;
      var queue := if |c.queue| > 0 then c.queue[1..] else c.queue;
      if next != Undef then Ok(Checked(queue, c.flags.Put(a.name, next)))
      else if IsRequired(a.required) then Err(MissingPositional(a.name, rt))
      else Ok(Checked(queue, c.flags.Put(a.name, a.default)))
    case Enum =>
      var v := Lookup(c.flags, a.name, rt);
      var options := OptionList(a);
      if v != Undef && |options| > 0 && !Includes(options, v) then Err(InvalidEnum(a.name, v, options, rt))
      else Ok(c)
    case Number =>
      var v := Lookup(c.flags, a.name, rt);
      var parsed := rt.parseFloat(Display(v, rt));
      if parsed.None? then Err(InvalidNumber(a.name, v, rt))
      else Ok(Checked(c.queue, c.flags.Put(a.name, Num(parsed.value))))
    case _ =>
      if IsRequired(a.required) && Lookup(c.flags, a.name, rt) == Undef then Err(MissingArgument(a.name))
      else Ok(c)
  }

  function CheckFrom(args: seq<Arg>, i: nat, c: Checked, rt: Runtime): Result<Checked, CliError>
    requires i <= |args|
    decreases |args| - i
  {
    if i == |args| then Ok(c)
    else
      match CheckArg(args[i], c, rt)
      case Err(e) => Err(e)
      case Ok(c') => CheckFrom(args, i + 1, c', rt)
  }

  /** `parseArgs(rawArgs, argsDef)`: the parsed object, or the first `EARG` error. */
  function ParseArgsSpec(rawArgs: seq<string>, defs: Dict<ArgDef>, rt: Runtime): Result<Argv, CliError>
    requires defs.Valid()
  {
    var args := ResolveArgs(defs);
    var opts := ParseOptionsFor(args);
    var argv := RawParse(rawArgs, opts, rt).argv;
    match CheckFrom(args, 0, Checked(argv.rest, argv.flags), rt)
    case Err(e) => Err(e)
    case Ok(c) => Ok(Argv(argv.rest, c.flags))
  }

  // ---------------------------------------------------------------------------
  // The imperative version

  method BuildParseOptions(args: seq<Arg>) returns (opts: Options)
    ensures opts == ParseOptionsFor(args)
  {
    var strings: seq<string> := [];
    var booleans: seq<string> := [];
    var alias: Dict<Arrayable<string>> := EmptyDict();
    var default: Dict<Val> := EmptyDict();
    for i := 0 to |args|
      invariant BucketsFrom(args, i, Buckets(strings, booleans, alias, default)) == BucketsFrom(args, 0, NoBuckets())
    {
      var a := args[i];
      if a.argType.Positional? {
        continue;
      }
      if a.argType.String? || a.argType.Number? {
        strings := strings + [a.name];
      } else if a.argType.Boolean? {
        booleans := booleans + [a.name];
      }
      if a.default != Undef {
        default := default.Put(a.name, a.default);
      }
      alias := alias.Put(a.name, Array(a.alias));
    }
    opts := Options(Array(booleans), Array(strings), Some(alias), Some(default), false);
  }

  /** The checking loop of `parseArgs`. */
  method CheckArgs(args: seq<Arg>, leftovers: seq<Val>, parsed: Dict<Val>, rt: Runtime) returns (r: Result<Checked, CliError>)
    ensures r == CheckFrom(args, 0, Checked(leftovers, parsed), rt)
  {
    var queue := leftovers;
    var flags := parsed;
    for i := 0 to |args|
      invariant CheckFrom(args, i, Checked(queue, flags), rt) == CheckFrom(args, 0, Checked(leftovers, parsed), rt)
    {
      var a := args[i];
      if a.argType.Positional? {
        var next := Undef;
        if |queue| > 0 {
          next := queue[0];
          queue := queue[1..];
        }
        if next != Undef {
          flags := flags.Put(a.name, next);
        } else if IsRequired(a.required) {
          return Err(MissingPositional(a.name, rt));
        } else {
          flags := flags.Put(a.name, a.default);
        }
      } else if a.argType.Enum? {
        var v := Lookup(flags, a.name, rt);
        var options := OptionList(a);
        if v != Undef && |options| > 0 && !Includes(options, v) {
          return Err(InvalidEnum(a.name, v, options, rt));
        }
      } else if a.argType.Number? {
        var original := Lookup(flags, a.name, rt);
        var number := rt.parseFloat(Display(original, rt));
        if number.None? {
          return Err(InvalidNumber(a.name, original, rt));
        }
        flags := flags.Put(a.name, Num(number.value));
      } else if IsRequired(a.required) && Lookup(flags, a.name, rt) == Undef {
        return Err(MissingArgument(a.name));
      }
    }
    return Ok(Checked(queue, flags));
  }

  /** `parseArgs(rawArgs, argsDef)` with the loops of the source. */
  method ParseArgs(rawArgs: seq<string>, defs: Dict<ArgDef>, rt: Runtime) returns (r: Result<Argv, CliError>)
    requires defs.Valid()
    ensures r == ParseArgsSpec(rawArgs, defs, rt)
  {
    var args := ResolveArgs(defs);
    var opts := BuildParseOptions(args);
    var raw := ParseRawArgs(rawArgs, opts, rt);
    var checked := CheckArgs(args, raw.argv.rest, raw.argv.flags, rt);
    if checked.Err? {
      return Err(checked.error);
    }
    return Ok(Argv(raw.argv.rest, checked.value.flags));
  }
}
