/** Properties of the typed argument layer defined in args.dfy. */
module ArgsProps {
  import opened Js
  import opened Types
  import opened Utils
  import opened Parser
  import opened Args

  ghost predicate DistinctNames(args: seq<Arg>) {
    forall i, j :: 0 <= i < j < |args| ==> args[i].name != args[j].name
  }

  /** Declared keys are distinct, so the descriptors' names are. */
  lemma ResolvedNamesDistinct(defs: Dict<ArgDef>)
    requires defs.Valid()
    ensures DistinctNames(ResolveArgs(defs))
  {
  }

  // ---------------------------------------------------------------------------
  // Buckets

  predicate StringBucket(t: ArgType) {
    t.String? || t.Number?
  }

  ghost predicate NamedAt(args: seq<Arg>, i: nat, x: string)
    requires i <= |args|
  {
    exists j :: i <= j < |args| && args[j].name == x
  }

  lemma {:induction false} StringsFrom(args: seq<Arg>, i: nat, acc: Buckets)
    requires i <= |args|
    ensures forall x :: x in BucketsFrom(args, i, acc).strings <==>
              x in acc.strings || exists j :: i <= j < |args| && args[j].name == x && StringBucket(args[j].argType)
    decreases |args| - i
  {
    if i < |args| {
      var a := args[i];
      if a.argType.Positional? {
        StringsFrom(args, i + 1, acc);
      } else {
        var next := BucketsFrom(args, i, acc);
        var strings := if StringBucket(a.argType) then acc.strings + [a.name] else acc.strings;
        var booleans := if a.argType.Boolean? then acc.booleans + [a.name] else acc.booleans;
        var default := if a.default != Undef then acc.default.Put(a.name, a.default) else acc.default;
        var step := Buckets(strings, booleans, acc.alias.Put(a.name, Array(a.alias)), default);
        StringsFrom(args, i + 1, step);
        assert args[i].name == a.name;
      }
    }
  }

  lemma {:induction false} BooleansFrom(args: seq<Arg>, i: nat, acc: Buckets)
    requires i <= |args|
    ensures forall x :: x in BucketsFrom(args, i, acc).booleans <==>
              x in acc.booleans || exists j :: i <= j < |args| && args[j].name == x && args[j].argType.Boolean?
    decreases |args| - i
  {
    if i < |args| {
      var a := args[i];
      if a.argType.Positional? {
        BooleansFrom(args, i + 1, acc);
      } else {
        var strings := if StringBucket(a.argType) then acc.strings + [a.name] else acc.strings;
        var booleans := if a.argType.Boolean? then acc.booleans + [a.name] else acc.booleans;
        var default := if a.default != Undef then acc.default.Put(a.name, a.default) else acc.default;
        var step := Buckets(strings, booleans, acc.alias.Put(a.name, Array(a.alias)), default);
        BooleansFrom(args, i + 1, step);
        assert args[i].name == a.name;
      }
    }
  }

  lemma {:induction false} AliasFrom(args: seq<Arg>, i: nat, acc: Buckets)
    requires i <= |args|
    requires forall a, b :: i <= a < b < |args| ==> args[a].name != args[b].name
    ensures var r := BucketsFrom(args, i, acc);
            (forall j :: i <= j < |args| && !args[j].argType.Positional? ==>
               args[j].name in r.alias.vals && r.alias.vals[args[j].name] == Array(args[j].alias)) &&
            (forall x :: x in r.alias.vals <==>
               x in acc.alias.vals || exists j :: i <= j < |args| && args[j].name == x && !args[j].argType.Positional?) &&
            (forall x :: x in acc.alias.vals && !NamedAt(args, i, x) ==> r.alias.vals[x] == acc.alias.vals[x])
    decreases |args| - i
  {
    if i < |args| {
      var a := args[i];
      if a.argType.Positional? {
        AliasFrom(args, i + 1, acc);
      } else {
        var strings := if StringBucket(a.argType) then acc.strings + [a.name] else acc.strings;
        var booleans := if a.argType.Boolean? then acc.booleans + [a.name] else acc.booleans;
        var default := if a.default != Undef then acc.default.Put(a.name, a.default) else acc.default;
        var step := Buckets(strings, booleans, acc.alias.Put(a.name, Array(a.alias)), default);
        AliasFrom(args, i + 1, step);
        assert !NamedAt(args, i + 1, a.name);
        assert args[i].name == a.name;
      }
    }
  }

  lemma {:induction false} DefaultFrom(args: seq<Arg>, i: nat, acc: Buckets)
    requires i <= |args|
    requires forall a, b :: i <= a < b < |args| ==> args[a].name != args[b].name
    ensures var r := BucketsFrom(args, i, acc);
            (forall j :: i <= j < |args| && !args[j].argType.Positional? && args[j].default != Undef ==>
               args[j].name in r.default.vals && r.default.vals[args[j].name] == args[j].default) &&
            (forall x :: x in r.default.vals <==>
               x in acc.default.vals ||
               exists j :: i <= j < |args| && args[j].name == x && !args[j].argType.Positional? && args[j].default != Undef) &&
            (forall x :: x in acc.default.vals && !NamedAt(args, i, x) ==> r.default.vals[x] == acc.default.vals[x])
    decreases |args| - i
  {
    if i < |args| {
      var a := args[i];
      if a.argType.Positional? {
        DefaultFrom(args, i + 1, acc);
      } else {
        var strings := if StringBucket(a.argType) then acc.strings + [a.name] else acc.strings;
        var booleans := if a.argType.Boolean? then acc.booleans + [a.name] else acc.booleans;
        var default := if a.default != Undef then acc.default.Put(a.name, a.default) else acc.default;
        var step := Buckets(strings, booleans, acc.alias.Put(a.name, Array(a.alias)), default);
        DefaultFrom(args, i + 1, step);
        assert !NamedAt(args, i + 1, a.name);
        assert args[i].name == a.name;
      }
    }
  }

  /** The string bucket of the tokenizer options: exactly the names of the
      `string` and `number` arguments, so no positional name. */
  lemma StringBucketOfDeclarations(args: seq<Arg>)
    requires DistinctNames(args)
    ensures var b := BucketsFrom(args, 0, NoBuckets());
            (forall x :: x in b.strings <==>
               exists j :: 0 <= j < |args| && args[j].name == x && StringBucket(args[j].argType)) &&
            (forall j :: 0 <= j < |args| && args[j].argType.Positional? ==> args[j].name !in b.strings)
  {
    StringsFrom(args, 0, NoBuckets());
  }

  /** The boolean bucket: exactly the names of the `boolean` arguments
      (`enum` arguments are in neither bucket), so no positional name. */
  lemma BooleanBucketOfDeclarations(args: seq<Arg>)
    requires DistinctNames(args)
    ensures var b := BucketsFrom(args, 0, NoBuckets());
            (forall x :: x in b.booleans <==>
               exists j :: 0 <= j < |args| && args[j].name == x && args[j].argType.Boolean?) &&
            (forall j :: 0 <= j < |args| && args[j].argType.Positional? ==> args[j].name !in b.booleans)
  {
    BooleansFrom(args, 0, NoBuckets());
  }

  /** Every non-positional name gets its own alias list; a positional name
      gets none. */
  lemma AliasesOfDeclarations(args: seq<Arg>)
    requires DistinctNames(args)
    ensures var b := BucketsFrom(args, 0, NoBuckets());
            (forall j :: 0 <= j < |args| && !args[j].argType.Positional? ==>
               args[j].name in b.alias.vals && b.alias.vals[args[j].name] == Array(args[j].alias)) &&
            (forall j :: 0 <= j < |args| && args[j].argType.Positional? ==> args[j].name !in b.alias.vals)
  {
    AliasFrom(args, 0, NoBuckets());
  }

  /** A non-positional argument's default is forwarded exactly when one is
      given; a positional's default is not forwarded. */
  lemma DefaultsOfDeclarations(args: seq<Arg>)
    requires DistinctNames(args)
    ensures var b := BucketsFrom(args, 0, NoBuckets());
            (forall j :: 0 <= j < |args| && !args[j].argType.Positional? ==>
               (args[j].name in b.default.vals <==> args[j].default != Undef) &&
               (args[j].default != Undef ==> b.default.vals[args[j].name] == args[j].default)) &&
            (forall j :: 0 <= j < |args| && args[j].argType.Positional? ==> args[j].name !in b.default.vals)
  {
    DefaultFrom(args, 0, NoBuckets());
  }

  // ---------------------------------------------------------------------------
  // The checking loop against a reference

  /** Positional and number arguments write their own key; the others only read. */
  predicate Writes(t: ArgType) {
    t.Positional? || t.Number?
  }

  /** No argument's name is another argument's camelCase or kebab-case
      spelling, so the proxy reads of one argument never see another's slot. */
  ghost predicate NoCrossTalk(args: seq<Arg>, rt: Runtime) {
    forall i, j :: 0 <= i < |args| && 0 <= j < |args| && i != j ==>
      args[j].name != rt.camelCase(args[i].name) && args[j].name != rt.kebabCase(args[i].name)
  }

  function PositionalsBefore(args: seq<Arg>, i: nat): nat
    requires i <= |args|
  {
    if i == 0 then 0 else PositionalsBefore(args, i - 1) + (if args[i - 1].argType.Positional? then 1 else 0)
  }

  /** The leftover a positional argument at `i` takes: the next one in order. */
  function Leftover(args: seq<Arg>, i: nat, rest: seq<Val>): Val
    requires i < |args|
  {
    var q := PositionalsBefore(args, i);
    if q < |rest| then rest[q] else Undef
  }

  /** The rule of `args[i]` read against the tokenizer's output. */
  predicate Violates(args: seq<Arg>, i: nat, rest: seq<Val>, flags0: Dict<Val>, rt: Runtime)
    requires i < |args|
  {
    var a := args[i];
    var v := Lookup(flags0, a.name, rt);
    match a.argType
    case Positional => Leftover(args, i, rest) == Undef && IsRequired(a.required)
    case Enum => v != Undef && |OptionList(a)| > 0 && !Includes(OptionList(a), v)
    case Number => rt.parseFloat(Display(v, rt)).None?
    case _ => IsRequired(a.required) && v == Undef
  }

  function ErrorFor(args: seq<Arg>, i: nat, rest: seq<Val>, flags0: Dict<Val>, rt: Runtime): CliError
    requires i < |args|
  {
    var a := args[i];
    var v := Lookup(flags0, a.name, rt);
    match a.argType
    case Positional => MissingPositional(a.name, rt)
    case Enum => InvalidEnum(a.name, v, OptionList(a), rt)
    case Number => InvalidNumber(a.name, v, rt)
    case _ => MissingArgument(a.name)
  }

  /** The final value under `args[i].name` when no rule is violated. */
  function Settled(args: seq<Arg>, i: nat, rest: seq<Val>, flags0: Dict<Val>, rt: Runtime): Val
    requires i < |args| && !Violates(args, i, rest, flags0, rt)
  {
    var a := args[i];
    match a.argType
    case Positional => if Leftover(args, i, rest) != Undef then Leftover(args, i, rest) else a.default
    case Number => Num(rt.parseFloat(Display(Lookup(flags0, a.name, rt), rt)).value)
    case _ => Get(flags0, a.name)
  }

  lemma LookupUnchanged(args: seq<Arg>, i: nat, flags: Dict<Val>, flags0: Dict<Val>, rt: Runtime)
    requires i < |args| && DistinctNames(args) && NoCrossTalk(args, rt)
    requires forall x :: (forall j :: 0 <= j < i ==> x != args[j].name) ==> Get(flags, x) == Get(flags0, x)
    ensures Lookup(flags, args[i].name, rt) == Lookup(flags0, args[i].name, rt)
    ensures Get(flags, args[i].name) == Get(flags0, args[i].name)
  {
    var n := args[i].name;
    assert forall j :: 0 <= j < i ==> n != args[j].name;
    assert forall j :: 0 <= j < i ==> rt.camelCase(n) != args[j].name;
    assert forall j :: 0 <= j < i ==> rt.kebabCase(n) != args[j].name;
  }

  lemma {:induction false} CheckFromReference(args: seq<Arg>, i: nat, c: Checked, rest: seq<Val>,
                                              flags0: Dict<Val>, rt: Runtime)
    requires i <= |args| && DistinctNames(args) && NoCrossTalk(args, rt)
    requires c.queue == rest[Min(PositionalsBefore(args, i), |rest|)..]
    requires forall x :: (forall j :: 0 <= j < i ==> x != args[j].name) ==> Get(c.flags, x) == Get(flags0, x)
    requires forall j :: 0 <= j < i ==> !Violates(args, j, rest, flags0, rt)
    requires forall j :: 0 <= j < i ==> Get(c.flags, args[j].name) == Settled(args, j, rest, flags0, rt)
    ensures var r := CheckFrom(args, i, c, rt);
            (r.Ok? <==> forall j :: i <= j < |args| ==> !Violates(args, j, rest, flags0, rt)) &&
            (r.Err? ==> exists j :: i <= j < |args| && Violates(args, j, rest, flags0, rt) &&
                         (forall m :: i <= m < j ==> !Violates(args, m, rest, flags0, rt)) &&
                         r.error == ErrorFor(args, j, rest, flags0, rt)) &&
            (r.Ok? ==>
               (forall j :: 0 <= j < |args| ==> Get(r.value.flags, args[j].name) == Settled(args, j, rest, flags0, rt)) &&
               (forall x :: (forall j :: 0 <= j < |args| ==> x != args[j].name) ==> Get(r.value.flags, x) == Get(flags0, x)))
    decreases |args| - i
  {
    if i < |args| {
      CheckArgAgainstReference(args, i, c, rest, flags0, rt);
      var step := CheckArg(args[i], c, rt);
      if step.Ok? {
        CheckFromReference(args, i + 1, step.value, rest, flags0, rt);
      }
    }
  }

  /** One pass of the checking loop against the reference: it fails exactly
      when `args[i]` violates its rule, with that rule's error; otherwise it
      advances the queue past its leftover, settles `args[i].name` and
      leaves every other key alone. */
  lemma CheckArgAgainstReference(args: seq<Arg>, i: nat, c: Checked, rest: seq<Val>, flags0: Dict<Val>, rt: Runtime)
    requires i < |args| && DistinctNames(args) && NoCrossTalk(args, rt)
    requires c.queue == rest[Min(PositionalsBefore(args, i), |rest|)..]
    requires forall x :: (forall j :: 0 <= j < i ==> x != args[j].name) ==> Get(c.flags, x) == Get(flags0, x)
    ensures var step := CheckArg(args[i], c, rt);
            (step.Ok? <==> !Violates(args, i, rest, flags0, rt)) &&
            (step.Err? ==> step.error == ErrorFor(args, i, rest, flags0, rt)) &&
            (step.Ok? ==>
               step.value.queue == rest[Min(PositionalsBefore(args, i + 1), |rest|)..] &&
               Get(step.value.flags, args[i].name) == Settled(args, i, rest, flags0, rt) &&
               forall x :: x != args[i].name ==> Get(step.value.flags, x) == Get(c.flags, x))
  {
    if args[i].argType.Positional? {
      PositionalAgainstReference(args, i, c, rest, flags0, rt);
    } else {
      LookupUnchanged(args, i, c.flags, flags0, rt);
    }
  }

  /** `CheckArgAgainstReference` for a positional argument: it takes the
      next leftover, or its default when none is left. */
  lemma PositionalAgainstReference(args: seq<Arg>, i: nat, c: Checked, rest: seq<Val>, flags0: Dict<Val>, rt: Runtime)
    requires i < |args| && args[i].argType.Positional?
    requires c.queue == rest[Min(PositionalsBefore(args, i), |rest|)..]
    ensures var step := CheckArg(args[i], c, rt);
            (step.Ok? <==> !Violates(args, i, rest, flags0, rt)) &&
            (step.Err? ==> step.error == ErrorFor(args, i, rest, flags0, rt)) &&
            (step.Ok? ==>
               step.value.queue == rest[Min(PositionalsBefore(args, i + 1), |rest|)..] &&
               Get(step.value.flags, args[i].name) == Settled(args, i, rest, flags0, rt) &&
               forall x :: x != args[i].name ==> Get(step.value.flags, x) == Get(c.flags, x))
  {
    var q := PositionalsBefore(args, i);
    if q < |rest| {
      assert rest[q..][1..] == rest[q + 1..];
    }
  }

  /** `parseArgs` succeeds exactly when no argument violates its rule against
      the tokenizer's output; otherwise it throws the error of the first
      violating argument in declaration order. On success `_` is the
      tokenizer's leftover list untouched, each positional holds the next
      leftover (or its default), each number argument holds its parsed
      number, and every other key is as the tokenizer left it. */
  lemma ParseArgsMatchesReference(rawArgs: seq<string>, defs: Dict<ArgDef>, rt: Runtime)
    requires defs.Valid() && NoCrossTalk(ResolveArgs(defs), rt)
    ensures var args := ResolveArgs(defs);
            var raw := RawParse(rawArgs, ParseOptionsFor(args), rt);
            raw.Parsed? &&
            var rest := raw.argv.rest;
            var flags0 := raw.argv.flags;
            var r := ParseArgsSpec(rawArgs, defs, rt);
            (r.Ok? <==> forall j :: 0 <= j < |args| ==> !Violates(args, j, rest, flags0, rt)) &&
            (r.Err? ==> exists j :: 0 <= j < |args| && Violates(args, j, rest, flags0, rt) &&
                         (forall m :: 0 <= m < j ==> !Violates(args, m, rest, flags0, rt)) &&
                         r.error == ErrorFor(args, j, rest, flags0, rt)) &&
            (r.Ok? ==>
               r.value.rest == rest &&
               (forall j :: 0 <= j < |args| ==> Get(r.value.flags, args[j].name) == Settled(args, j, rest, flags0, rt)) &&
               (forall x :: (forall j :: 0 <= j < |args| ==> x != args[j].name) ==> Get(r.value.flags, x) == Get(flags0, x)))
  {
    var args := ResolveArgs(defs);
    var opts := ParseOptionsFor(args);
    var raw := RawParse(rawArgs, opts, rt);
    assert raw.Parsed?;
    var rest := raw.argv.rest;
    var flags0 := raw.argv.flags;
    ResolvedNamesDistinct(defs);
    CheckAllAgainstReference(args, rest, flags0, rt);
    var checked := CheckFrom(args, 0, Checked(rest, flags0), rt);
    var r := ParseArgsSpec(rawArgs, defs, rt);
    assert r.Ok? <==> checked.Ok?;
    assert r.Ok? ==> r.value == Argv(rest, checked.value.flags);
    if r.Err? {
      var j :| 0 <= j < |args| && Violates(args, j, rest, flags0, rt) &&
               (forall m :: 0 <= m < j ==> !Violates(args, m, rest, flags0, rt)) &&
               checked.error == ErrorFor(args, j, rest, flags0, rt);
      assert r.error == ErrorFor(args, j, rest, flags0, rt);
    }
  }

  /** The whole checking loop, from the tokenizer's output, against the
      reference. */
  lemma CheckAllAgainstReference(args: seq<Arg>, rest: seq<Val>, flags0: Dict<Val>, rt: Runtime)
    requires DistinctNames(args) && NoCrossTalk(args, rt)
    ensures var r := CheckFrom(args, 0, Checked(rest, flags0), rt);
            (r.Ok? <==> forall j :: 0 <= j < |args| ==> !Violates(args, j, rest, flags0, rt)) &&
            (r.Err? ==> exists j :: 0 <= j < |args| && Violates(args, j, rest, flags0, rt) &&
                         (forall m :: 0 <= m < j ==> !Violates(args, m, rest, flags0, rt)) &&
                         r.error == ErrorFor(args, j, rest, flags0, rt)) &&
            (r.Ok? ==>
               (forall j :: 0 <= j < |args| ==> Get(r.value.flags, args[j].name) == Settled(args, j, rest, flags0, rt)) &&
               (forall x :: (forall j :: 0 <= j < |args| ==> x != args[j].name) ==> Get(r.value.flags, x) == Get(flags0, x)))
  {
    assert rest[Min(PositionalsBefore(args, 0), |rest|)..] == rest;
    CheckFromReference(args, 0, Checked(rest, flags0), rest, flags0, rt);
  }

  /** A `number` argument that received no value (and has no default) makes
      `parseArgs` throw, since `Number.parseFloat("undefined")` is `NaN`. */
  lemma AbsentNumberIsRejected(rawArgs: seq<string>, defs: Dict<ArgDef>, rt: Runtime, i: nat)
    requires defs.Valid() && NoCrossTalk(ResolveArgs(defs), rt)
    requires rt.parseFloat("undefined") == None
    requires i < |defs.keys| && ResolveArgs(defs)[i].argType.Number?
    requires var raw := RawParse(rawArgs, ParseOptionsFor(ResolveArgs(defs)), rt);
             raw.Parsed? && Lookup(raw.argv.flags, defs.keys[i], rt) == Undef
    ensures ParseArgsSpec(rawArgs, defs, rt).Err?
  {
    var args := ResolveArgs(defs);
    var opts := ParseOptionsFor(args);
    var raw := RawParse(rawArgs, opts, rt);
    assert Violates(args, i, raw.argv.rest, raw.argv.flags, rt);
    ParseArgsMatchesReference(rawArgs, defs, rt);
  }
}
