/** Declarations of the command-definition surface: argument definitions,
    command metadata and command trees (src/types.ts). Resolvable fields are
    held as their resolved values. */
module Types {
  import opened Js

  /** `type` of an argument definition. `Untyped` is an absent (or any other)
      `type`; `Enum` is handled by the argument parser although the declared
      type union leaves it out. */
  datatype ArgType = Boolean | Number | String | Positional | Enum | Untyped

  /** One entry of an `args` map as the user declares it. `default` is `Undef`
      when absent; `required` keeps the difference between absent and `false`,
      which the usage renderer observes. */
  datatype ArgDef = ArgDef(
    argType: ArgType,
    description: Option<string>,
    valueHint: Option<string>,
    alias: Arrayable<string>,
    default: Val,
    required: Option<bool>,
    options: Option<seq<string>>,
    negativeDescription: Option<string>)

  /** A normalised argument descriptor: the definition plus its key as `name`
      and its aliases as a list. */
  datatype Arg = Arg(
    name: string,
    argType: ArgType,
    description: Option<string>,
    valueHint: Option<string>,
    alias: seq<string>,
    default: Val,
    required: Option<bool>,
    options: Option<seq<string>>,
    negativeDescription: Option<string>)

  /** `required` as a JavaScript condition (`if (arg.required)`). */
  predicate IsRequired(required: Option<bool>) {
    required == Some(true)
  }

  datatype Meta = Meta(
    name: Option<string>,
    version: Option<string>,
    description: Option<string>,
    hidden: bool,
    aliases: seq<string>)

  /** What a user hook does when awaited: it returns a value or throws one. */
  datatype HookOutcome = Returns(value: Val) | Throws(thrown: Val)

  datatype Hook = Hook(tag: string, outcome: HookOutcome)

  /** A command definition. `subCommands` keeps its declaration order; an
      absent field is held as an empty list, and `hasSubCommands` records
      whether the field was given at all (the usage renderer lists an empty
      object but not an absent one; every other reader treats them alike).
      `alias` is the
      command-level field read only by the throwing subcommand lookup of
      src/_utils.ts. */
  datatype Command = Command(
    meta: Option<Meta>,
    args: Dict<ArgDef>,
    subCommands: seq<SubEntry>,
    hasSubCommands: bool,
    alias: Arrayable<string>,
    setup: Option<Hook>,
    run: Option<Hook>,
    cleanup: Option<Hook>)

  datatype SubEntry = SubEntry(name: string, cmd: Command)

  /** `meta?.aliases || []` */
  function MetaAliases(c: Command): seq<string> {
    if c.meta.Some? then c.meta.value.aliases else []
  }
}
