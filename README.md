# citty core in Dafny

This project is a Dafny model of the core of citty, a TypeScript framework for
command-line interfaces, with proofs about that model. It covers five parts:

- **The raw tokenizer** `parseRawArgs` (src/_parser.ts). It is a port of
  mri 1.2.0 and turns a token list into an object of flag values plus the
  leftover list `_`. The model covers:
  - `--` as the end of options;
  - `--no-x`, inline `=value`, single-dash clusters and next-token values;
  - string and boolean buckets, and accumulation of repeated flags;
  - defaults, two-way aliases, and the strict `unknown` callback.
- **The typed argument layer** `resolveArgs`/`parseArgs` (src/args.ts). It
  normalises the declared schema into an ordered descriptor list and builds
  the tokenizer's options from it. Then it assigns positionals from the
  leftovers, checks enums, numbers and required arguments, and reads keys
  through an exact → camelCase → kebab-case lookup.
- **Command-tree dispatch** (src/command.ts). This is the subcommand lookup
  (exact key first, then `meta.aliases`) and the recursive `runCommand`. Its
  `setup` → subcommand → `run` → `cleanup` order is kept with a `finally`-style
  cleanup. Hooks are recorded as events of a trace, and each hook's behaviour
  is given as data: it returns a value or throws one. It also covers the
  resolution-only walk `resolveSubCommand`.
- **Helpers** (src/_utils.ts, src/validate.ts): `toArray`, `resolveValue`,
  `formatLineColumns`, the throwing `getSubCommand`, `CLIError`, and the
  rejection of undeclared options.
- **The usage renderer's formatting logic** (src/usage.ts): `formatArgString`,
  `formatArgName`, the loop that sorts arguments and subcommands into OPTIONS,
  ARGUMENTS and COMMANDS rows and usage-summary entries, and the version
  fallback.

Where the source mutates state step by step, the model does the same. Its
loops are methods (`Parser.ParseRawArgs`, `Args.ParseArgs`,
`Commands.RunCommand`, `Validate.ValidateUnknownOptions`,
`Usage.RenderUsageLines`, …). Each is proved equal to a specification
function, and the lemmas state what the source promises about that function.

JavaScript values are modelled in `Js`:
- `Val` holds `undefined`, strings, numbers, booleans and arrays;
- objects are insertion-ordered dictionaries;
- `String(v)` is `Display`.

Host functions the model cannot see are passed in as a `Runtime` record of
uninterpreted functions:
- number sniffing (`+val`);
- `Number.parseFloat`;
- number-to-string;
- scule's `camelCase`/`kebabCase`;
- `toUpperCase`.

| file | module | models |
|---|---|---|
| js.dfy | Js | JavaScript values, ordered objects, truthiness, `String(v)`, `Array.prototype.join` |
| types.dfy | Types | argument definitions, descriptors, metadata, hooks, command trees (src/types.ts) |
| utils.dfy | Utils | src/_utils.ts |
| parser.dfy | Parser | src/_parser.ts, as functions and as the source's loops |
| parser_props.dfy | ParserProps | tokenizer properties |
| alias_props.dfy | AliasProps | alias symmetrisation and propagation |
| args.dfy | Args | src/args.ts |
| args_props.dfy | ArgsProps | buckets and a reference semantics of `parseArgs` |
| command.dfy | Commands | src/command.ts |
| command_props.dfy | CommandProps | hook order, cleanup, errors, results, resolution |
| validate.dfy | Validate | src/validate.ts |
| usage.dfy | Usage | src/usage.ts:19-136 |

## Model

| member | source | states |
|---|---|---|
| Utils.ToArray | src/_utils.ts:3-8 | an array is returned unchanged; otherwise the result has at most one element; membership is exactly the wrapped value or the array's elements (`undefined` gives `[]`) |
| Utils.Fail | src/_utils.ts:52-60 | a `CLIError` keeps its message and its code, and its name is `"CLIError"` |
| Utils.ResolveValue | src/_utils.ts:29-31 | a plain value resolves to itself; a producer resolves to what calling it returns |
| Utils.ColumnWidths | src/_utils.ts:11-16 | there is one width per column of the longest row, and each width bounds every cell of its column |
| Utils.WidthAttained | src/_utils.ts:11-16 | no width is larger than needed: some cell of the column is exactly as long as the width |
| Utils.ComputeColumnWidths | src/_utils.ts:11-16 | the nested `maxLength` loop computes exactly `ColumnWidths` |
| Utils.PaddingKeepsCell | src/_utils.ts:22 | `padStart`/`padEnd` give a string of length max(cell, width) that keeps the cell as its suffix/prefix, so nothing is truncated |
| Utils.FormatLineColumns | src/_utils.ts:10-27 | the output is the rows' padded cells joined by two spaces, with rows joined by `\n`; there is one line per input row |
| Utils.ColumnsAligned | src/_utils.ts:17-26 | every cell carries the line prefix and is exactly prefix + column width long; column 0 keeps the cell as a suffix (right-aligned), other columns as a prefix (left-aligned) |
| Utils.GetSubCommand | src/_utils.ts:33-50 | an own key wins (its first entry); otherwise the first command whose `alias` (via `toArray`) lists the name; it throws `E_UNKNOWN_COMMAND` "Unknown command \`name\`" exactly when neither exists |
| Parser.Without | src/_parser.ts:72 | `arr.concat(k).splice(i, 1)` drops exactly one element before `k` is appended |
| Parser.LeadingDashes | src/_parser.ts:114-118 | the count of leading `-` characters: all counted characters are dashes, and the next one is not |
| Parser.EqIndex | src/_parser.ts:129-133 | the first `=` at or after the start position, or the end of the token |
| Parser.ValueAt | src/_parser.ts:136-140 | a flag's value comes from the inline `=value`, else `true` at the last token or before a dash token, else the next token, which is then skipped; the scan advances by one or two tokens |
| Parser.ClusterNames | src/_parser.ts:141 | two dashes name one flag; one dash (or three or more) names one flag per character |
| Parser.StepAt | src/_parser.ts:106-150 | one pass of the scan loop always moves strictly forward within the token list |
| Parser.SymmetriseAliases | src/_parser.ts:68-75 | the alias symmetrisation loops compute the specification `SymmetriseFrom` |
| Parser.ExpandBucket | src/_parser.ts:77-89 | the backward bucket-expansion loops push every alias of every bucket entry, as `Expanded` states |
| Parser.PushReversed | src/_parser.ts:79-81 | the inner loop appends the alias list last element first |
| Parser.AddDefaults | src/_parser.ts:91-102 | the defaults loop registers each defaulted key (and its aliases) in the bucket its value's type names |
| Parser.ScanToken | src/_parser.ts:107-150 | the body of the scan loop computes `StepAt` |
| Parser.ScanFlag | src/_parser.ts:128-149 | the flag branch of the loop body (`=` search, value choice, per-name loop) computes `FlagStep` |
| Parser.FindEq | src/_parser.ts:129-133 | the `=` search loop stops where `EqIndex` says |
| Parser.TakeValue | src/_parser.ts:136-140 | the chained logical-or value expression picks the value and the resume position `ValueAt` gives |
| Parser.ApplyNamesInOrder | src/_parser.ts:143-149 | the loop over a token's names, with its early `unknown` return, computes `ApplyNames` |
| Parser.ScanTokens | src/_parser.ts:106-151 | the scan loop computes `ScanFrom` from the empty object |
| Parser.FillDefaults | src/_parser.ts:153-159 | the defaults-filling loop computes `FillDefaultsFrom` |
| Parser.PropagateAliases | src/_parser.ts:161-168 | the propagation loop (over the keys present when it starts) computes `Propagated` |
| Parser.ParseRawArgs | src/_parser.ts:45-171 | the whole imperative parse computes `RawParse` |
| ParserProps.BareTokenIsPositional | src/_parser.ts:120-121 | a token without a leading dash is appended to `_` unchanged and consumes nothing else |
| ParserProps.NegationStoresFalse | src/_parser.ts:122-127 | `--no-name` / `-no-name` stores `false` under `name`, leaves `_` alone and does not consume the next token |
| ParserProps.DashTokenNeverConsumed | src/_parser.ts:136-140 | a consumed value token never starts with `-` |
| ParserProps.DoubleDashEndsOptions | src/_parser.ts:109-112 | after the first `--`, every later token ends up at the end of `_`, verbatim and in order |
| Parser.RawParse | src/_parser.ts:122-149 | without an `unknown` callback the scan never rejects a token, so the parser always returns the parsed object |
| ParserProps.StrictRejectsUndeclaredFlag | src/_parser.ts:143-147 | in strict mode, a leading `--name` that is not an alias key returns `unknown("--name")` |
| ParserProps.StrictRejectsUndeclaredNegation | src/_parser.ts:122-126 | in strict mode, a leading `--no-name` whose name is not an alias key returns `unknown` of the whole token |
| ParserProps.ApplyNamesEffect | src/_parser.ts:141-149 | each name of a flag token is stored once, in order: earlier names get the implicit value, the last gets the chosen value, and other keys are untouched |
| ParserProps.ApplyNamesKeepsOthers | src/_parser.ts:143-149 | keys that are not among the token's names keep their values |
| ParserProps.ApplyNamesStores | src/_parser.ts:143-149 | each of the token's distinct names gets its coerced value accumulated exactly once |
| ParserProps.ToValEffect | src/_parser.ts:24-43 | `toVal` accumulates the coerced value onto its key and writes no other key |
| ParserProps.ClusterSetsEachCharacter | src/_parser.ts:141-149 | in `-abc` every character is a flag; all but the last get `true` (or `""` for a string key), and only the last gets the chosen value |
| ParserProps.ClusterToken | src/_parser.ts:114-149 | a token `-abc` without `=` and not a negation takes the flag branch with one name per character and no inline value |
| ParserProps.RepeatedValuesAccumulate | src/_parser.ts:41-42 | repeated occurrences give a scalar, then a two-element array, then appends: n ≥ 2 values fold into the array of all of them |
| ParserProps.RepeatedClusterKeyIsArray | src/_parser.ts:141-149 | a key named n ≥ 2 times in one token ends up holding the array of its n values, in order |
| ParserProps.CoercedValueIsScalar | src/_parser.ts:24-40 | `toVal` never stores `undefined` or an array for one occurrence |
| ParserProps.StringKeyStoresString | src/_parser.ts:27-30 | a declared string key stores a string: `""` for an implicit value, else the value itself |
| ParserProps.BooleanKeyValues | src/_parser.ts:31-37 | a declared boolean key maps `"false"` to false and `"true"` to true; any other value sets the flag to its truthiness and pushes the number-sniffed value onto `_` |
| ParserProps.DefaultsFillOnlyUndefined | src/_parser.ts:153-159 | after filling, a key holds its scanned value if defined, else its default |
| AliasProps.AliasesAreSymmetric | src/_parser.ts:68-75 | every declared alias maps back to its name, and `y` is an alias of `x` exactly when `x` is an alias of `y` |
| AliasProps.PreparedAliases | src/_parser.ts:91-102 | registering defaults keeps the alias map made of cliques, and every declared alias is still linked |
| AliasProps.FirstInSpec | src/_parser.ts:162 | the first key of the visiting order that lies in a group is the earliest one, and there is none exactly when no key of the order is in the group |
| AliasProps.PropagatedGroupsAgree | src/_parser.ts:161-168 | after propagation every alias group holds the value its first member among the keys present had, or is as it was when no member is present; names in no group keep their value; so every name and each of its aliases agree |
| AliasProps.AliasesShareValues | src/_parser.ts:153-168 | after a whole parse, each alias group holds the value of its first member present after the scan and the defaults (absent when none is), names in no group keep their value, and a declared name and each of its aliases hold the same value |
| AliasProps.ShortAliasSetsBoth | test/parser.test.ts:36-46 | `-n John` with `n` an alias of `name` sets both `n` and `name` to "John" and leaves `_` empty |
| Args.ResolveArgs | src/args.ts:108-120 | there is one descriptor per declared key, in declaration order; each carries its key as `name` and the definition's fields, with `alias` empty when absent, a singleton for a bare string, and the list otherwise |
| Args.Lookup | src/args.ts:56-60 | the exact key's value if defined, else the camelCase spelling's if defined, else the kebab-case spelling's |
| Args.Backticked | src/args.ts:85 | every option is wrapped in backticks, keeping count and order |
| Args.BuildParseOptions | src/args.ts:30-51 | the bucket-building loop computes `ParseOptionsFor` |
| Args.CheckArgs | src/args.ts:62-103 | the checking loop computes `CheckFrom` |
| Args.ParseArgs | src/args.ts:6-106 | the imperative `parseArgs` computes `ParseArgsSpec` |
| ArgsProps.ResolvedNamesDistinct | src/args.ts:108-120 | the descriptors' names are distinct, because object keys are |
| ArgsProps.StringBucketOfDeclarations | src/args.ts:30-51 | the string bucket is exactly the names of the `string` and `number` arguments, so it holds no positional |
| ArgsProps.BooleanBucketOfDeclarations | src/args.ts:30-51 | the boolean bucket is exactly the names of the `boolean` arguments (`enum` is in neither bucket), so it holds no positional |
| ArgsProps.AliasesOfDeclarations | src/args.ts:30-51 | every non-positional name gets its own alias list, and a positional gets none |
| ArgsProps.DefaultsOfDeclarations | src/args.ts:30-51 | a non-positional default is forwarded exactly when one is given; a positional's default is not |
| ArgsProps.CheckFromReference | src/args.ts:62-103 | the checking loop succeeds iff no later argument violates its rule, and throws the first violator's error; on success it settles each name and leaves other keys alone |
| ArgsProps.CheckArgAgainstReference | src/args.ts:63-102 | one pass of the loop throws exactly when its argument violates its rule, with that rule's error; otherwise it takes the next leftover if positional, settles its own name and changes no other key |
| ArgsProps.ParseArgsMatchesReference | src/args.ts:53-105 | `parseArgs` succeeds iff no argument violates its rule; otherwise it throws the first violator's `EARG` error in declaration order. On success `_` is untouched, each positional holds the next leftover or its default, each number holds its parsed value, and other keys are as tokenized |
| ArgsProps.AbsentNumberIsRejected | src/args.ts:89-99 | a `number` argument with no value and no default makes `parseArgs` throw |
| Commands.KeyFromSpec | src/command.ts:26-30 | the exact-key search finds the first entry under the name, or none iff no entry has it |
| Commands.AliasFromSpec | src/command.ts:32-38 | the alias search finds the first entry whose `meta.aliases` lists the name, or none iff no entry does |
| Commands.SubIndexForSpec | src/command.ts:22-41 | the first entry under the exact key; otherwise the first entry whose `meta.aliases` lists the name; -1 iff neither exists |
| Commands.SubCommandForSpec | src/command.ts:22-41 | `getSubCommand` returns the command of the first entry under the key, else of the first entry listing the name as an alias, and `undefined` exactly when neither exists |
| Commands.FindSubCommand | src/command.ts:22-41 | the two search loops with early return compute `SubCommandFor` |
| Commands.FirstNonDashSpec | src/command.ts:67-69 | the index of the first token without a leading dash, or -1 iff every token starts with a dash |
| Commands.HookEvents | src/command.ts:58-60 | an absent hook records nothing; a present hook records exactly one event with its tag and the context |
| Commands.RunCommand | src/command.ts:43-100 | the imperative `runCommand` computes `Execute`: parse, then the lifecycle |
| Commands.RunLifecycle | src/command.ts:57-99 | `setup`, then dispatch and `run` inside the `try`, then `cleanup` in the `finally`, as `Lifecycle` states |
| Commands.DispatchAndRun | src/command.ts:62-93 | subcommand dispatch and the own `run`, as `Dispatch` states |
| Commands.RouteOf | src/command.ts:65-84 | the route into a subcommand names an existing entry and a strictly shorter token list, so the recursion ends |
| Commands.DispatchCandidate | src/command.ts:70-93 | lookup of the candidate, the `E_UNKNOWN_COMMAND` throw, the recursive run on the later tokens and then `run`, as `Dispatch` states |
| Commands.RunSubCommand | src/command.ts:81-83 | the recursive call runs the subcommand on the tail without `data`, as `Execute` states |
| Commands.RunStep | src/command.ts:90-93 | `run` is recorded after the earlier events; its value is the result, its exception is passed on, and without `run` the result is `undefined` |
| Commands.AfterCandidate | src/command.ts:116 | the tokens after the candidate are a suffix of the input (all of them when there is no candidate) |
| CommandProps.ParseErrorRunsNoHook | src/command.ts:47-48 | a failed parse throws its `CLIError` before any hook runs |
| CommandProps.RouteChild | src/command.ts:66-84 | the dispatch enters a subcommand exactly when the candidate names one, and then on exactly the tokens after the candidate |
| CommandProps.TraceContexts | src/command.ts:50-55 | every hook sees a suffix of the tokens; this command's hooks get its own context, and subcommand hooks see strictly fewer tokens and no `data` |
| CommandProps.DispatchOrder | src/command.ts:64-93 | dispatch records the subcommand's hooks (on fewer tokens) and then possibly this command's `run` |
| CommandProps.HookOrder | src/command.ts:57-98 | the trace is own `setup`, then the subcommand's events, then own `run`, then own `cleanup`; a throwing `cleanup` decides the outcome |
| CommandProps.CleanupRunsOnce | src/command.ts:58-64 | once parsing succeeds, `cleanup` runs exactly once iff it exists and `setup` did not throw, even when dispatch or `run` throws, and it is the last hook |
| CommandProps.SetupFailureStopsRun | src/command.ts:57-60 | a throwing `setup` is the only hook that runs, and its value is thrown |
| CommandProps.ResultIsOwnRun | src/command.ts:91-99 | a completed run returns its own `run` value, or `undefined` without `run`; subcommand results are dropped |
| CommandProps.UnknownCommandThrows | src/command.ts:71-79 | a candidate that names no subcommand throws `E_UNKNOWN_COMMAND`; only `setup` and `cleanup` run |
| CommandProps.NoCommandThrows | src/command.ts:85-87 | subcommands present, no (or an empty) candidate and no `run` throws `E_NO_COMMAND` |
| CommandProps.SubcommandRunsOnTail | src/command.ts:80-84 | the matched subcommand runs on exactly the tokens after the candidate, without `data`, between `setup` and `run`; if it throws, `run` is skipped and its error passes through a non-throwing `cleanup` |
| Commands.ResolveSubCommand | src/command.ts:102-122 | a command that does not descend on the tokens is returned with the parent it was given; otherwise the returned parent declares the returned leaf among its subcommands |
| CommandProps.ResolvedLeafStops | src/command.ts:102-122 | the tokens left to the leaf are a suffix of the input, the leaf does not descend on them, and resolving again from the leaf on them returns the leaf with whatever parent is given |
| CommandProps.NoCandidateReadsUndefinedKey | src/command.ts:109-111 | when every token starts with a dash, the walk descends exactly when a subcommand is keyed "undefined", and then into that entry; no `meta.aliases` entry matches |
| CommandProps.UndefinedAliasNotEntered | src/command.ts:109-111 | a subcommand whose `meta.aliases` lists "undefined" is not entered when there is no candidate: the root is returned with no parent |
| CommandProps.ResolvesNamedSubcommand | test/main.test.ts:160-184 | `foo bar` resolves to `foo`, with the root as parent |
| Validate.UnknownOption | src/validate.ts:17-20 | the error has code `E_UNKNOWN_OPTION`, shows `--key` for keys longer than one character and `-k` otherwise |
| Validate.ValidateUnknownOptions | src/validate.ts:4-23 | it returns normally iff every key other than `_` is a declared name or alias; otherwise it reports the first undeclared key in iteration order |
| Usage.NegativePrefixExamples | src/usage.ts:19 | `no-color` and `noColor` count as negations; `normal`, `nocolor` and `no` do not |
| Usage.FormatArgString | src/usage.ts:25-51 | an enum with `options` gives the name, `=<`, the options joined by a vertical bar, and `>`; a string with a hint gives the name, `=<`, the hint and `>`; a string without a hint, or a positional, that has a default gives the name, `="`, the default and `"`; every other argument gives the bare name, and only those do |
| Usage.DefaultShownOnlyForStringAndPositional | src/usage.ts:21-51 | changing the default changes nothing except for string and positional arguments, and nothing for a string with a value hint |
| Usage.FormatArgName | src/usage.ts:54-61 | without aliases the result is `--name` (`--no-name` when negative); otherwise it is every alias as `-a` (`-no-a`), in order, joined by `, `, then `, ` and the long flag |
| Usage.NegativeNameForm | src/usage.ts:54-61 | the negative list is the positive list of the same argument with `no-` before its name and each alias |
| Usage.PositionalToken | src/usage.ts:89-90 | a positional shows as `<NAME>` iff `required` is not `false` and it has no default, else `[NAME]` |
| Usage.OptionLine | src/usage.ts:92-96 | the `(required)` hint appears iff `required === true` and there is no default |
| Usage.RenderUsageLines | src/usage.ts:80-132 | the accumulating loops compute `RenderLines` |
| Usage.RenderArg | src/usage.ts:81-116 | the body of the argument loop performs one `ArgStep` on the three accumulators |
| Usage.RenderCommands | src/usage.ts:119-130 | the subcommand loop, with its `continue` for hidden entries, computes `CommandsLinesOf` and `CommandNames` |
| Usage.ArgLinesShape | src/usage.ts:80-117 | the ARGUMENTS rows are the positionals in declaration order; OPTIONS has one row per other argument plus one per negative variant; the summary has one entry per positional and per required option |
| Usage.ArgStepShape | src/usage.ts:81-116 | one argument adds a positional row only if positional, one OPTIONS row (two with a negative variant) only if not, a summary entry only if positional or a required option, and no COMMANDS row |
| Usage.UsageLineEntries | src/usage.ts:89-99 | the argument part of the summary holds exactly the positionals' tokens and the required options' flag strings |
| Usage.VisibleCommands | src/usage.ts:122-130 | the COMMANDS rows and the names are those of the non-hidden subcommands, row j headed by name j |
| Usage.HiddenCommandOmitted | src/usage.ts:125-127 | a hidden subcommand gets neither a name in the summary segment nor a COMMANDS row |
| Usage.SubcommandSegment | src/usage.ts:119-132 | a given `subCommands` field adds one summary entry, the visible names joined by a vertical bar (empty when all are hidden); an absent field adds nothing |
| Usage.UsageVersion | src/usage.ts:136 | the command's own version when it is a non-empty string, else the parent's |
| Usage.CommanderExample | test/usage.test.ts:5-60 | the example's summary is `--foo <POS>`, with the OPTIONS and ARGUMENTS rows the snapshot shows |
| Usage.FooRow | test/usage.test.ts:13-53 | the required `foo` gives the row `` `--foo (required)` `` and the summary entry `--foo` |
| Usage.BarRow | test/usage.test.ts:17-54 | `bar` with alias `b` gives the row `` `-b, --bar` `` |
| Usage.EnumRow | test/usage.test.ts:26-55 | the enum with options `a` and `b` gives an OPTIONS row for `--enum` showing its choices `a` and `b`, joined by a vertical bar |

## Where the tests and the code disagree

The model follows the code in each case:

- test/alias.test.ts:8-10 declares `meta.alias`, but src/command.ts:35 reads
  `meta.aliases`. Only `aliases` is a lookup alias here.
- test/args.test.ts:79-85 expects a positional without `required` to throw
  when missing. src/args.ts:68 throws only when `required` is truthy, so
  such a positional gets its default.
- test/parser.test.ts:92-101 expects `undefined` for flags given without
  values. src/_parser.ts:27-30 stores `""` for a string key, and a flag
  given without a value is `true`.
- Plugin hooks and an `onError` handler (test/plugin.test.ts:112-235,
  playground/commands/error.ts:36) have no counterpart in src/command.ts.

## Left out

- I/O and host glue: src/main.ts, src/_registry.ts, src/tab.ts,
  src/_completions.ts, src/_color.ts and src/plugin.ts. These are process
  arguments, exit codes, console output, HTTP, environment variables and
  Promise wrappers.
- `showUsage`, the colour calls, `process.argv[1]` and the final string
  assembly of `renderUsage` (src/usage.ts:7-16, 67-73, 134-176). Only the
  row and summary building is modelled.
- Asynchrony and `Resolvable` thunks. Resolved values are held directly, and
  a hook is data: a tag plus a returned or thrown value.
- Floating point:
  - the number sniffing `+val` / `x * 0 === 0` (src/_parser.ts:37-40);
  - `Number.parseFloat`/`isNaN` (src/args.ts:91-94);
  - number-to-string.

  These are uninterpreted `Runtime` functions.
- scule's `camelCase`/`kebabCase` and `toUpperCase` are uninterpreted. The
  `Proxy` is an explicit lookup function (`Args.Lookup`); its writes go
  straight to the named key.
- JavaScript object details:
  - integer-like keys ordering first;
  - prototype keys such as `constructor`;
  - a flag literally named `_`. In the source it would overwrite the
    leftover list; here `_` is held apart from the flags.
- The `number`, `enum` and `mixed` lists that `parseArgs` fills but the
  tokenizer never reads (src/args.ts:13-15, 41).
- Mutation of the caller's `opts` arrays and objects by `parseRawArgs`, and
  the aliasing between them, are not modelled. The model computes the
  rewritten options as values.
- Subcommand keys are a list of entries, so duplicate keys can be written
  in the model. The exact-key lookup takes the first, which for a real
  object is the only one.
- AliasProps.AliasesAreSymmetric, AliasProps.PreparedAliases and
  AliasProps.AliasesShareValues are proved only for disjoint alias groups:
  - no name is in two groups;
  - no alias is repeated;
  - no alias equals its own name.

  Overlapping groups are computed by the model, but nothing is claimed
  about them.
- ArgsProps.ParseArgsMatchesReference and ArgsProps.AbsentNumberIsRejected
  assume that no argument's name is another argument's camelCase or
  kebab-case spelling. Otherwise the case-folding reads of one argument can
  see another's value.
- ParserProps.ClusterSetsEachCharacter, ParserProps.ApplyNamesEffect and
  ParserProps.ApplyNamesStores assume the characters of the cluster are distinct. A repeated character
  is covered by ParserProps.RepeatedClusterKeyIsArray.
- ParserProps.StrictRejectsUndeclaredFlag and
  ParserProps.StrictRejectsUndeclaredNegation are stated for the first
  token only.
- Parser.ClusterNames, Utils.ColumnWidths, Utils.PaddingKeepsCell and
  Validate.UnknownOption count Unicode characters where JavaScript counts
  UTF-16 code units (`length`, `charCodeAt`, `padStart`/`padEnd`, and the
  per-character split of a `-abc` cluster). Strings are sequences of
  characters here. The two agree for text in the Basic Multilingual Plane.
  They differ for other characters: a one-character key such as an emoji has
  length 2 in JavaScript, so the source reports it as `--key`; a `-` cluster
  splits it into two surrogate halves; and column widths count it twice.
- Usage.HiddenCommandOmitted assumes the hidden entry's key is not shared
  by another entry (object keys are unique).
