/** Properties of the raw tokenizer defined in parser.dfy. */
module ParserProps {
  import opened Js
  import opened Utils
  import opened Parser

  // ---------------------------------------------------------------------------
  // Token-level behaviour of the scan loop

  /** A token without a leading dash goes to `_` unchanged and consumes nothing else. */
  lemma BareTokenIsPositional(args: seq<string>, i: nat, st: ScanState, d: Directives, strict: bool, rt: Runtime)
    requires i < |args| && !StartsWithDash(args[i])
    ensures StepAt(args, i, st, d, strict, rt) == Next(ScanState(st.rest + [Str(args[i])], st.flags), i + 1)
  {
  }

  /** `--no-<name>` (or `-no-<name>`) stores `false` under `<name>`, leaves `_`
      alone and does not consume the next token. */
  lemma NegationStoresFalse(args: seq<string>, i: nat, dashes: nat, name: string,
                            st: ScanState, d: Directives, rt: Runtime)
    requires i < |args| && 1 <= dashes <= 2 && args[i] == Dashes(dashes) + "no-" + name
    ensures StepAt(args, i, st, d, false, rt) == Next(ScanState(st.rest, st.flags.Put(name, Bool(false))), i + 1)
  {
    var arg := args[i];
    assert arg[..dashes] == Dashes(dashes);
    DashesAreDashes(dashes);
    assert arg[dashes] == 'n';
    assert LeadingDashes(arg) == dashes;
    assert Substring(arg, dashes, dashes + 3) == arg[dashes..dashes + 3] == "no-";
    assert Slice(arg, dashes + 3) == arg[dashes + 3..] == name;
  }

  lemma DashesAreDashes(n: nat)
    ensures forall k :: 0 <= k < n ==> Dashes(n)[k] == '-'
  {
    if n > 0 {
      DashesAreDashes(n - 1);
    }
  }

  /** A token starting with a dash is never taken as a flag's value: the scan
      advances by one token, or by two when the next token was consumed as a
      value, and that token does not start with a dash. */
  lemma DashTokenNeverConsumed(args: seq<string>, i: nat, st: ScanState, d: Directives, strict: bool, rt: Runtime)
    requires i < |args|
    ensures var r := StepAt(args, i, st, d, strict, rt);
            r.Next? ==> r.i == i + 1 || (r.i == i + 2 && !StartsWithDash(args[i + 1]))
  {
  }

  /** A literal `--` ends option scanning: once the scan reaches the first `--`,
      every later token lands at the end of `_`, verbatim and in order. Reaching
      it is guaranteed because a dash token is never consumed as a value. */
  lemma {:induction false} ScanToDoubleDash(args: seq<string>, i: nat, st: ScanState, d: Directives,
                                            strict: bool, rt: Runtime, k: nat)
    requires i <= k < |args| && args[k] == "--"
    requires forall m :: i <= m < k ==> args[m] != "--"
    ensures var r := ScanFrom(args, i, st, d, strict, rt);
            r.Finished? ==>
              |r.st.rest| >= |args| - k - 1 &&
              r.st.rest[|r.st.rest| - (|args| - k - 1)..] == Wrap(args[k + 1..])
    decreases k - i
  {
    if i == k {
      var rest := st.rest + Wrap(args[k + 1..]);
      assert ScanFrom(args, i, st, d, strict, rt) == Finished(ScanState(rest, st.flags));
      assert rest[|rest| - (|args| - k - 1)..] == Wrap(args[k + 1..]);
    } else {
      StepStaysBefore(args, i, st, d, strict, rt, k);
      var step := StepAt(args, i, st, d, strict, rt);
      if step.Next? {
        ScanToDoubleDash(args, step.i, step.st, d, strict, rt, k);
      }
    }
  }

  lemma StepStaysBefore(args: seq<string>, i: nat, st: ScanState, d: Directives, strict: bool, rt: Runtime, k: nat)
    requires i < k < |args| && args[k] == "--"
    ensures var r := StepAt(args, i, st, d, strict, rt);
            r.Next? ==> r.i <= k
  {
    DashTokenNeverConsumed(args, i, st, d, strict, rt);
    assert StartsWithDash(args[k]);
  }

  /** The end-of-options guarantee for a whole parse. */
  lemma DoubleDashEndsOptions(args: seq<string>, opts: Options, rt: Runtime, k: nat)
    requires k < |args| && args[k] == "--"
    requires forall m :: 0 <= m < k ==> args[m] != "--"
    ensures var r := RawParse(args, opts, rt);
            r.Parsed? ==>
              |r.argv.rest| >= |args| - k - 1 &&
              r.argv.rest[|r.argv.rest| - (|args| - k - 1)..] == Wrap(args[k + 1..])
  {
    ScanToDoubleDash(args, 0, InitialState(), Prepare(opts), opts.strict, rt, k);
  }

  // ---------------------------------------------------------------------------
  // Strict mode

  /** In strict mode a leading `--name` whose name is not an alias key yields
      `unknown("--name")` instead of the parsed object. */
  lemma StrictRejectsUndeclaredFlag(args: seq<string>, opts: Options, rt: Runtime, name: string)
    requires opts.strict && |args| > 0 && args[0] == "--" + name
    requires |name| > 0 && name[0] != '-' && (forall c :: c in name ==> c != '=')
    requires |name| < 3 || name[..3] != "no-"
    requires name !in Prepare(opts).alias
    ensures RawParse(args, opts, rt) == Unknown("--" + name)
  {
    var arg := args[0];
    var d := Prepare(opts);
    assert arg[2] == name[0];
    assert LeadingDashes(arg) == 2;
    assert Substring(arg, 2, 5) != "no-" by {
      if |name| >= 3 {
        assert Substring(arg, 2, 5) == name[..3];
      }
    }
    assert forall m :: 2 <= m < |arg| ==> arg[m] != '=' by {
      forall m | 2 <= m < |arg|
        ensures arg[m] != '='
      {
        assert arg[m] == name[m - 2] && name[m - 2] in name;
      }
    }
    var idx := EqIndex(arg, 3);
    assert idx == |arg|;
    assert Substring(arg, 2, idx) == name;
    assert Dashes(2) == "--";
    var (v, next) := ValueAt(args, 0, Slice(arg, idx + 1));
    assert ApplyNames([name], 0, v, InitialState(), d, true, 2, rt) == Refused("--" + name);
  }

  /** In strict mode a leading `--no-name` whose name is not an alias key yields
      `unknown` of the whole token. */
  lemma StrictRejectsUndeclaredNegation(args: seq<string>, opts: Options, rt: Runtime, name: string)
    requires opts.strict && |args| > 0 && args[0] == "--no-" + name
    requires name !in Prepare(opts).alias
    ensures RawParse(args, opts, rt) == Unknown(args[0])
  {
    var arg := args[0];
    assert arg[..2] == Dashes(2) == "--";
    assert arg[0] == arg[1] == '-' && arg[2] == 'n';
    assert LeadingDashes(arg) == 2;
    assert Substring(arg, 2, 5) == "no-";
    assert Slice(arg, 5) == name;
  }

  // ---------------------------------------------------------------------------
  // Flag tokens, clusters and accumulation

  /** Each name of a flag token is stored once, in order: earlier names get
      the implicit value, the last one the chosen value, and keys outside the
      token are untouched. */
  lemma ApplyNamesEffect(names: seq<string>, p: nat, v: FlagValue, st: ScanState,
                         d: Directives, dashes: nat, rt: Runtime)
    requires p <= |names|
    requires forall a, b :: p <= a < b < |names| ==> names[a] != names[b]
    ensures var c := ApplyNames(names, p, v, st, d, false, dashes, rt);
            c.Applied? &&
            (forall x :: x !in names[p..] ==> Get(c.st.flags, x) == Get(st.flags, x)) &&
            (forall q :: p <= q < |names| ==>
               Get(c.st.flags, names[q]) ==
               Accumulate(Get(st.flags, names[q]), Coerce(names[q], if q + 1 < |names| then Implicit else v, d, rt).0))
  {
    ApplyNamesLenient(names, p, v, st, d, dashes, rt);
    ApplyNamesKeepsOthers(names, p, v, st, d, dashes, rt);
    ApplyNamesStores(names, p, v, st, d, dashes, rt);
  }

  /** Keys that are not among the names of a flag token are untouched. */
  lemma {:induction false} ApplyNamesKeepsOthers(names: seq<string>, p: nat, v: FlagValue, st: ScanState,
                                                 d: Directives, dashes: nat, rt: Runtime)
    requires p <= |names|
    ensures var c := ApplyNames(names, p, v, st, d, false, dashes, rt);
            c.Applied? ==> forall x :: x !in names[p..] ==> Get(c.st.flags, x) == Get(st.flags, x)
    decreases |names| - p
  {
    if p < |names| {
      var fv := if p + 1 < |names| then Implicit else v;
      ToValEffect(st, names[p], fv, d, rt);
      ApplyNamesKeepsOthers(names, p + 1, v, ToVal(st, names[p], fv, d, rt), d, dashes, rt);
      assert names[p..] == [names[p]] + names[p + 1..];
    }
  }

  /** Each name of a flag token, all distinct, gets its value accumulated
      exactly once. */
  lemma {:induction false} ApplyNamesStores(names: seq<string>, p: nat, v: FlagValue, st: ScanState,
                                            d: Directives, dashes: nat, rt: Runtime)
    requires p <= |names|
    requires forall a, b :: p <= a < b < |names| ==> names[a] != names[b]
    ensures var c := ApplyNames(names, p, v, st, d, false, dashes, rt);
            c.Applied? ==>
            forall q :: p <= q < |names| ==>
              Get(c.st.flags, names[q]) ==
              Accumulate(Get(st.flags, names[q]), Coerce(names[q], if q + 1 < |names| then Implicit else v, d, rt).0)
    decreases |names| - p
  {
    if p < |names| {
      var fv := if p + 1 < |names| then Implicit else v;
      var st' := ToVal(st, names[p], fv, d, rt);
      ToValEffect(st, names[p], fv, d, rt);
      ApplyNamesStores(names, p + 1, v, st', d, dashes, rt);
      ApplyNamesKeepsOthers(names, p + 1, v, st', d, dashes, rt);
      assert names[p] !in names[p + 1..];
    }
  }

  /** `toVal` accumulates the coerced value onto `key` and touches no other key. */
  lemma ToValEffect(st: ScanState, key: string, v: FlagValue, d: Directives, rt: Runtime)
    ensures Get(ToVal(st, key, v, d, rt).flags, key) == Accumulate(Get(st.flags, key), Coerce(key, v, d, rt).0)
    ensures forall x :: x != key ==> Get(ToVal(st, key, v, d, rt).flags, x) == Get(st.flags, x)
  {
  }

  /** A single-dash token `-abc` sets one flag per character: all but the last
      get the implicit value (`true`, or `""` for a string key), and only the
      last gets the value chosen for the token. */
  lemma ClusterSetsEachCharacter(args: seq<string>, i: nat, cs: string, st: ScanState, d: Directives, rt: Runtime)
    requires i < |args| && args[i] == "-" + cs
    requires |cs| > 0 && cs[0] != '-' && (forall c :: c in cs ==> c != '=')
    requires |cs| < 3 || cs[..3] != "no-"
    requires forall a, b :: 0 <= a < b < |cs| ==> cs[a] != cs[b]
    ensures var r := StepAt(args, i, st, d, false, rt);
            var (v, next) := ValueAt(args, i, "");
            r.Next? && r.i == next &&
            (forall q :: 0 <= q < |cs| - 1 ==>
               Get(r.st.flags, [cs[q]]) ==
               Accumulate(Get(st.flags, [cs[q]]), if [cs[q]] in d.strings then Str("") else Bool(true))) &&
            Get(r.st.flags, [cs[|cs| - 1]]) ==
            Accumulate(Get(st.flags, [cs[|cs| - 1]]), Coerce([cs[|cs| - 1]], v, d, rt).0)
  {
    ClusterToken(args, i, cs, st, d, rt);
    var names := ClusterNames(cs, 1);
    var v := ValueAt(args, i, "").0;
    assert forall a, b :: 0 <= a < b < |names| ==> names[a] != names[b] by {
      forall a, b | 0 <= a < b < |names|
        ensures names[a] != names[b]
      {
        assert names[a][0] == cs[a] && names[b][0] == cs[b];
      }
    }
    ApplyNamesEffect(names, 0, v, st, d, 1, rt);
    var c := ApplyNames(names, 0, v, st, d, false, 1, rt);
    forall q | 0 <= q < |cs| - 1
      ensures Get(c.st.flags, [cs[q]]) ==
              Accumulate(Get(st.flags, [cs[q]]), if [cs[q]] in d.strings then Str("") else Bool(true))
    {
      assert names[q] == [cs[q]];
    }
    assert names[|cs| - 1] == [cs[|cs| - 1]];
  }

  /** A token `-cs` without `=` and not a negation is a flag step over the
      whole of `cs`, with no inline value. */
  lemma ClusterToken(args: seq<string>, i: nat, cs: string, st: ScanState, d: Directives, rt: Runtime)
    requires i < |args| && args[i] == "-" + cs
    requires |cs| > 0 && cs[0] != '-' && (forall c :: c in cs ==> c != '=')
    requires |cs| < 3 || cs[..3] != "no-"
    ensures var c := ApplyNames(ClusterNames(cs, 1), 0, ValueAt(args, i, "").0, st, d, false, 1, rt);
            c.Applied? ==> StepAt(args, i, st, d, false, rt) == Next(c.st, ValueAt(args, i, "").1)
  {
    var arg := args[i];
    assert arg[1] == cs[0];
    assert LeadingDashes(arg) == 1;
    assert Substring(arg, 1, 4) != "no-" by {
      if |cs| >= 3 {
        assert Substring(arg, 1, 4) == cs[..3];
      }
    }
    assert forall m :: 1 <= m < |arg| ==> arg[m] != '=' by {
      forall m | 1 <= m < |arg|
        ensures arg[m] != '='
      {
        assert arg[m] == cs[m - 1] && cs[m - 1] in cs;
      }
    }
    assert EqIndex(arg, 2) == |arg|;
    assert Substring(arg, 1, |arg|) == cs;
    assert Slice(arg, |arg| + 1) == "";
  }

  /** The values successive occurrences of one key fold into. */
  function AccumulateAll(prev: Val, vs: seq<Val>): Val
    decreases |vs|
  {
    if vs == [] then prev else AccumulateAll(Accumulate(prev, vs[0]), vs[1..])
  }

  predicate Scalar(v: Val) {
    v != Undef && !v.List?
  }

  lemma {:induction false} AccumulateOntoList(xs: seq<Val>, vs: seq<Val>)
    requires |xs| >= 2
    ensures AccumulateAll(List(xs), vs) == List(xs + vs)
    decreases |vs|
  {
    if vs != [] {
      AccumulateOntoList(xs + [vs[0]], vs[1..]);
      assert xs + [vs[0]] + vs[1..] == xs + vs;
    }
  }

  /** Repeated occurrences accumulate: the first stores a scalar, the second
      makes a two-element array, later ones append. */
  lemma RepeatedValuesAccumulate(vs: seq<Val>)
    requires |vs| >= 2 && Scalar(vs[0])
    ensures AccumulateAll(Undef, vs) == List(vs)
  {
    AccumulateOntoList([vs[0], vs[1]], vs[2..]);
    assert [vs[0], vs[1]] + vs[2..] == vs;
  }

  /** What `toVal` stores is never `undefined` and never an array. */
  lemma CoercedValueIsScalar(key: string, v: FlagValue, d: Directives, rt: Runtime)
    ensures Scalar(Coerce(key, v, d, rt).0)
  {
  }

  /** The values the names of a flag token give to key `x` from position `p` on. */
  function ValuesFor(names: seq<string>, p: nat, x: string, v: FlagValue, d: Directives, rt: Runtime): seq<Val>
    requires p <= |names|
    decreases |names| - p
  {
    if p == |names| then []
    else if names[p] == x then [Coerce(x, if p + 1 < |names| then Implicit else v, d, rt).0] + ValuesFor(names, p + 1, x, v, d, rt)
    else ValuesFor(names, p + 1, x, v, d, rt)
  }

  lemma {:induction false} ApplyNamesAccumulates(names: seq<string>, p: nat, x: string, v: FlagValue, st: ScanState,
                                                 d: Directives, dashes: nat, rt: Runtime)
    requires p <= |names|
    ensures var c := ApplyNames(names, p, v, st, d, false, dashes, rt);
            c.Applied? && Get(c.st.flags, x) == AccumulateAll(Get(st.flags, x), ValuesFor(names, p, x, v, d, rt))
    decreases |names| - p
  {
    if p < |names| {
      ApplyNamesAccumulates(names, p + 1, x, v,
                            ToVal(st, names[p], if p + 1 < |names| then Implicit else v, d, rt), d, dashes, rt);
    }
  }

  /** A key named `n >= 2` times in one cluster (`-vvv`) ends up holding the
      array of its `n` values, in order. */
  lemma RepeatedClusterKeyIsArray(names: seq<string>, x: string, v: FlagValue, st: ScanState,
                                  d: Directives, dashes: nat, rt: Runtime)
    requires Get(st.flags, x) == Undef && |ValuesFor(names, 0, x, v, d, rt)| >= 2
    ensures var c := ApplyNames(names, 0, v, st, d, false, dashes, rt);
            c.Applied? && Get(c.st.flags, x) == List(ValuesFor(names, 0, x, v, d, rt))
  {
    ApplyNamesAccumulates(names, 0, x, v, st, d, dashes, rt);
    var vs := ValuesFor(names, 0, x, v, d, rt);
    ValuesAreScalars(names, 0, x, v, d, rt);
    RepeatedValuesAccumulate(vs);
  }

  lemma {:induction false} ValuesAreScalars(names: seq<string>, p: nat, x: string, v: FlagValue, d: Directives, rt: Runtime)
    requires p <= |names|
    ensures forall w :: w in ValuesFor(names, p, x, v, d, rt) ==> Scalar(w)
    decreases |names| - p
  {
    if p < |names| {
      ValuesAreScalars(names, p + 1, x, v, d, rt);
    }
  }

  /** Declared string keys store a string; a flag given without a value stores `""`. */
  lemma StringKeyStoresString(key: string, v: FlagValue, d: Directives, rt: Runtime)
    requires key in d.strings
    ensures Coerce(key, v, d, rt) == (Str(if v.Implicit? then "" else v.s), [])
  {
  }

  /** Declared boolean keys (that are not string keys) map `"false"` to false
      and `"true"` to true; any other value sets the flag to whether it is
      non-empty and pushes the (number-sniffed) value onto `_`. */
  lemma BooleanKeyValues(key: string, s: string, d: Directives, rt: Runtime)
    requires key in d.booleans && key !in d.strings
    ensures s == "false" ==> Coerce(key, Given(s), d, rt) == (Bool(false), [])
    ensures s == "true" ==> Coerce(key, Given(s), d, rt) == (Bool(true), [])
    ensures s != "false" && s != "true" ==> Coerce(key, Given(s), d, rt) == (Bool(s != ""), [Sniff(s, rt)])
    ensures Coerce(key, Implicit, d, rt) == (Bool(true), [])
  {
  }

  // ---------------------------------------------------------------------------
  // Defaults

  lemma {:induction false} FillDefaultsEffect(flags: Dict<Val>, dflt: Dict<Val>, i: nat)
    requires dflt.Valid() && i <= |dflt.keys|
    ensures forall k :: Get(FillDefaultsFrom(flags, dflt, i), k) ==
                        if Get(flags, k) == Undef && k in dflt.keys[i..] then Get(dflt, k) else Get(flags, k)
    decreases |dflt.keys| - i
  {
    if i < |dflt.keys| {
      var k := dflt.keys[i];
      var next := if Get(flags, k) == Undef then flags.Put(k, Get(dflt, k)) else flags;
      FillDefaultsEffect(next, dflt, i + 1);
      assert FillDefaultsFrom(flags, dflt, i) == FillDefaultsFrom(next, dflt, i + 1);
      assert dflt.keys[i..] == [k] + dflt.keys[i + 1..];
      assert k !in dflt.keys[i + 1..];
      forall x | x != k
        ensures Get(next, x) == Get(flags, x)
      {
      }
    }
  }

  /** Defaults fill exactly the keys still `undefined` after the scan. */
  lemma DefaultsFillOnlyUndefined(flags: Dict<Val>, dflt: Dict<Val>)
    requires dflt.Valid()
    ensures forall k :: Get(FillDefaultsFrom(flags, dflt, 0), k) ==
                        if Get(flags, k) == Undef then Get(dflt, k) else Get(flags, k)
  {
    FillDefaultsEffect(flags, dflt, 0);
    assert dflt.keys[0..] == dflt.keys;
    forall k | k !in dflt.keys
      ensures Get(dflt, k) == Undef
    {
    }
  }
}
