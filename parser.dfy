/** The raw tokenizer (src/_parser.ts, a port of mri 1.2.0): a token list and
    parsing options in, a bag of flag values plus the leftover tokens `_` out.

    The functions below define the tokenizer phase by phase; the methods at the
    end perform the same phases with the loops of the source and are proved to
    compute exactly what the functions define. Properties are lemmas in
    parser_props.dfy. */
module Parser {
  import opened Js
  import opened Utils

  /** `Options` of `parseRawArgs`. `alias`/`default` are `None` when the field
      is absent; `strict` is "an `unknown` callback was given". */
  datatype Options = Options(
    booleans: Arrayable<string>,
    strings: Arrayable<string>,
    alias: Option<Dict<Arrayable<string>>>,
    default: Option<Dict<Val>>,
    strict: bool)

  /** The parsed object: `_` and the flag values. */
  datatype Argv = Argv(rest: seq<Val>, flags: Dict<Val>)

  /** Either the parsed object or, in strict mode, the result of `unknown(flag)`. */
  datatype RawResult = Parsed(argv: Argv) | Unknown(flag: string)

  /** The options once `parseRawArgs` has rewritten them: the alias map, and the
      string and boolean buckets. */
  datatype Directives = Directives(alias: map<string, seq<string>>, strings: seq<string>, booleans: seq<string>)

  function AliasOf(alias: map<string, seq<string>>, k: string): seq<string> {
    if k in alias then alias[k] else []
  }

  /** `arr.concat(k).splice(i, 1)` leaves `arr` without its `i`-th entry, then `k`. */
  function Without(s: seq<string>, i: nat): (r: seq<string>)
    requires i < |s|
    ensures |r| == |s| - 1
  {
    s[..i] + s[i + 1..]
  }

  // ---------------------------------------------------------------------------
  // Rewriting the options (src/_parser.ts:64-102)

  /** Every alias entry through `toArr`. */
  function Normalised(d: Dict<Arrayable<string>>): map<string, seq<string>> {
    map k | k in d.vals :: ToArray(d.vals[k])
  }

  /** Inner loop of the symmetrisation: each alias of `k` gets the other
      aliases and `k`. */
  function LinkAliases(m: map<string, seq<string>>, arr: seq<string>, k: string, i: nat): map<string, seq<string>>
    requires i <= |arr|
    decreases |arr| - i
  {
    if i == |arr| then m
    else LinkAliases(m[arr[i] := Without(arr, i) + [k]], arr, k, i + 1)
  }

  /** Outer loop of the symmetrisation over the keys present when it starts. */
  function SymmetriseFrom(m: map<string, seq<string>>, keys: seq<string>, i: nat): map<string, seq<string>>
    requires i <= |keys|
    decreases |keys| - i
  {
    if i == |keys| then m
    else
      var arr := AliasOf(m, keys[i]);
      SymmetriseFrom(LinkAliases(m[keys[i] := arr], arr, keys[i], 0), keys, i + 1)
  }

  function SymmetrisedAliases(opts: Options): map<string, seq<string>> {
    match opts.alias
    case None => map[]
    case Some(d) => SymmetriseFrom(Normalised(d), d.keys, 0)
  }

  function Reversed(s: seq<string>): (r: seq<string>)
    ensures |r| == |s| && forall x :: x in r <==> x in s
  {
    if s == [] then [] else Reversed(s[1..]) + [s[0]]
  }

  /** What the bucket loop pushes while its index runs from `i - 1` down to 0:
      the aliases of each bucket entry, last alias first. */
  function ExpandFrom(bucket: seq<string>, alias: map<string, seq<string>>, i: nat): seq<string>
    requires i <= |bucket|
  {
    if i == 0 then [] else Reversed(AliasOf(alias, bucket[i - 1])) + ExpandFrom(bucket, alias, i - 1)
  }

  function Expanded(bucket: seq<string>, alias: map<string, seq<string>>): seq<string> {
    bucket + ExpandFrom(bucket, alias, |bucket|)
  }

  /** The defaults loop: each defaulted key gets an alias entry, and a string
      or boolean default puts the key and its aliases in that bucket. */
  function RegisterDefaults(d: Directives, dflt: Dict<Val>, i: nat): Directives
    requires i <= |dflt.keys|
    decreases |dflt.keys| - i
  {
    if i == |dflt.keys| then d
    else
      var k := dflt.keys[i];
      var arr := AliasOf(d.alias, k);
      var alias := d.alias[k := arr];
      var v := Get(dflt, k);
      var next :=
        if v.Str? then Directives(alias, d.strings + [k] + arr, d.booleans)
        else if v.Bool? then Directives(alias, d.strings, d.booleans + [k] + arr)
        else Directives(alias, d.strings, d.booleans);
      RegisterDefaults(next, dflt, i + 1)
  }

  function Prepare(opts: Options): Directives {
    var alias := SymmetrisedAliases(opts);
    var d := Directives(alias, Expanded(ToArray(opts.strings), alias), Expanded(ToArray(opts.booleans), alias));
    if opts.default.Some? then RegisterDefaults(d, opts.default.value, 0) else d
  }

  // ---------------------------------------------------------------------------
  // Scanning the tokens (src/_parser.ts:24-43, 104-151)

  datatype ScanState = ScanState(rest: seq<Val>, flags: Dict<Val>)

  /** The value a flag occurrence carries: `true` (nothing given) or a string. */
  datatype FlagValue = Implicit | Given(s: string)

  /** The number of leading `-` characters. */
  function LeadingDashes(s: string): (j: nat)
    ensures j <= |s|
    ensures forall k :: 0 <= k < j ==> s[k] == '-'
    ensures j < |s| ==> s[j] != '-'
  {
    if |s| > 0 && s[0] == '-' then
      var j := 1 + LeadingDashes(s[1..]);
      assert forall k :: 1 <= k < j ==> s[k] == s[1..][k - 1];
      j
    else 0
  }

  /** The first `=` at or after `from`; `from` itself when `from` is past the end,
      and the length when there is none. */
  function EqIndex(s: string, from: nat): (idx: nat)
    decreases |s| - from
    ensures from <= idx
    ensures idx < |s| ==> s[idx] == '='
    ensures from < |s| ==> idx <= |s|
    ensures from >= |s| ==> idx == from
    ensures forall k :: from <= k < idx && k < |s| ==> s[k] != '='
  {
    if from >= |s| then from else if s[from] == '=' then from else EqIndex(s, from + 1)
  }

  function Min(a: nat, b: nat): nat { if a < b then a else b }

  /** `s.substring(a, b)` for `a <= b`. */
  function Substring(s: string, a: nat, b: nat): string
    requires a <= b
  {
    s[Min(a, |s|)..Min(b, |s|)]
  }

  /** `s.slice(a)` for `a >= 0`. */
  function Slice(s: string, a: nat): string {
    s[Min(a, |s|)..]
  }

  /** `"-".repeat(n)` */
  function Dashes(n: nat): (r: string)
    ensures |r| == n
  {
    if n == 0 then "" else Dashes(n - 1) + "-"
  }

  function Wrap(tokens: seq<string>): (r: seq<Val>)
    ensures |r| == |tokens| && forall k :: 0 <= k < |r| ==> r[k] == Str(tokens[k])
  {
    seq(|tokens|, k requires 0 <= k < |tokens| => Str(tokens[k]))
  }

  /** `x = +val, x * 0 === 0 ? x : val` */
  function Sniff(s: string, rt: Runtime): Val {
    match rt.toNumber(s)
    case Some(x) => Num(x)
    case None => Str(s)
  }

  /** The value `toVal` computes for one occurrence of `key`, and what it pushes
      onto `_` while doing so. */
  function Coerce(key: string, v: FlagValue, d: Directives, rt: Runtime): (Val, seq<Val>) {
    if key in d.strings then (Str(if v.Implicit? then "" else v.s), [])
    else if v.Implicit? then (Bool(true), [])
    else if key in d.booleans then
      if v.s == "false" then (Bool(false), [])
      else if v.s == "true" then (Bool(true), [])
      else (Bool(v.s != ""), [Sniff(v.s, rt)])
    else (Sniff(v.s, rt), [])
  }

  /** A first occurrence stores the value; a second makes a two-element array;
      later ones append. */
  function Accumulate(prev: Val, nxt: Val): Val {
    if prev == Undef then nxt
    else if prev.List? then List(prev.items + [nxt])
    else List([prev, nxt])
  }

  /** `toVal(out, key, val, opts)` */
  function ToVal(st: ScanState, key: string, v: FlagValue, d: Directives, rt: Runtime): ScanState {
    var (nxt, pushed) := Coerce(key, v, d, rt);
    ScanState(st.rest + pushed, st.flags.Put(key, Accumulate(Get(st.flags, key), nxt)))
  }

  /** Two dashes name one flag; one dash (or three or more) name one flag per character. */
  function ClusterNames(name: string, dashes: nat): (names: seq<string>)
    ensures dashes == 2 ==> names == [name]
    ensures dashes != 2 ==> |names| == |name| && forall k :: 0 <= k < |name| ==> names[k] == [name[k]]
  {
    if dashes == 2 then [name] else seq(|name|, k requires 0 <= k < |name| => [name[k]])
  }

  datatype Cluster = Applied(st: ScanState) | Refused(flag: string)

  /** The loop over the names of one flag token: all but the last get `true`. */
  function ApplyNames(names: seq<string>, p: nat, v: FlagValue, st: ScanState, d: Directives,
                      strict: bool, dashes: nat, rt: Runtime): Cluster
    requires p <= |names|
    decreases |names| - p
  {
    if p == |names| then Applied(st)
    else if strict && names[p] !in d.alias then Refused(Dashes(dashes) + names[p])
    else ApplyNames(names, p + 1, v, ToVal(st, names[p], if p + 1 < |names| then Implicit else v, d, rt),
                    d, strict, dashes, rt)
  }

  /** The value of a flag at token `i` and where scanning resumes: an inline
      `=value`; else `true` when the token is last or the next one starts with a
      dash; else the next token, which is then skipped. */
  function ValueAt(args: seq<string>, i: nat, inline: string): (r: (FlagValue, nat))
    requires i < |args|
    ensures i < r.1 <= |args|
    ensures r.1 == i + 1 || (r.1 == i + 2 && r.0 == Given(args[i + 1]) && !StartsWithDash(args[i + 1]))
  {
    if inline != "" then (Given(inline), i + 1)
    else if i + 1 == |args| then (Implicit, i + 1)
    else if StartsWithDash(args[i + 1]) then (Implicit, i + 1)
    else (Given(args[i + 1]), i + 2)
  }

  datatype Step = Next(st: ScanState, i: nat) | Halt(st: ScanState) | Reject(flag: string)

  /** One pass of the scan loop, on token `i`. */
  function StepAt(args: seq<string>, i: nat, st: ScanState, d: Directives, strict: bool, rt: Runtime): (r: Step)
    requires i < |args|
    ensures r.Next? ==> i < r.i <= |args|
  {
    var arg := args[i];
    if arg == "--" then Halt(ScanState(st.rest + Wrap(args[i + 1..]), st.flags))
    else
      var j := LeadingDashes(arg);
      if j == 0 then Next(ScanState(st.rest + [Str(arg)], st.flags), i + 1)
      else if Substring(arg, j, j + 3) == "no-" then
        var name := Slice(arg, j + 3);
        if strict && name !in d.alias then Reject(arg)
        else Next(ScanState(st.rest, st.flags.Put(name, Bool(false))), i + 1)
      else FlagStep(args, i, j, st, d, strict, rt)
  }

  /** The flag branch of a scan pass on a token with `j` leading dashes: the
      name runs up to the first `=`, the value is chosen by `ValueAt`, and the
      names are applied in order. */
  function FlagStep(args: seq<string>, i: nat, j: nat, st: ScanState, d: Directives, strict: bool, rt: Runtime): (r: Step)
    requires i < |args|
    ensures r.Next? ==> i < r.i <= |args|
  {
    var arg := args[i];
    var idx := EqIndex(arg, j + 1);
    var (v, next) := ValueAt(args, i, Slice(arg, idx + 1));
    match ApplyNames(ClusterNames(Substring(arg, j, idx), j), 0, v, st, d, strict, j, rt)
    case Refused(f) => Reject(f)
    case Applied(st') => Next(st', next)
  }

  datatype ScanResult = Finished(st: ScanState) | Rejected(flag: string)

  function ScanFrom(args: seq<string>, i: nat, st: ScanState, d: Directives, strict: bool, rt: Runtime): ScanResult
    requires i <= |args|
    decreases |args| - i
  {
    if i == |args| then Finished(st)
    else
      match StepAt(args, i, st, d, strict, rt)
      case Halt(st') => Finished(st')
      case Reject(f) => Rejected(f)
      case Next(st', i') => ScanFrom(args, i', st', d, strict, rt)
  }

  // ---------------------------------------------------------------------------
  // After the scan (src/_parser.ts:153-168)

  /** Defaults fill every key still `undefined`. */
  function FillDefaultsFrom(flags: Dict<Val>, dflt: Dict<Val>, i: nat): Dict<Val>
    requires i <= |dflt.keys|
    decreases |dflt.keys| - i
  {
    if i == |dflt.keys| then flags
    else
      var k := dflt.keys[i];
      FillDefaultsFrom(if Get(flags, k) == Undef then flags.Put(k, Get(dflt, k)) else flags, dflt, i + 1)
  }

  /** `out[a] = out[k]` for every alias `a` of `k`, in order. */
  function CopyTo(flags: Dict<Val>, targets: seq<string>, k: string, p: nat): Dict<Val>
    requires p <= |targets|
    decreases |targets| - p
  {
    if p == |targets| then flags
    else CopyTo(flags.Put(targets[p], Get(flags, k)), targets, k, p + 1)
  }

  /** Alias propagation over the keys present when the loop starts. */
  function PropagateFrom(flags: Dict<Val>, keys: seq<string>, alias: map<string, seq<string>>, i: nat): Dict<Val>
    requires i <= |keys|
    decreases |keys| - i
  {
    if i == |keys| then flags
    else PropagateFrom(CopyTo(flags, AliasOf(alias, keys[i]), keys[i], 0), keys, alias, i + 1)
  }

  function Propagated(flags: Dict<Val>, alias: map<string, seq<string>>): Dict<Val> {
    PropagateFrom(flags, flags.keys, alias, 0)
  }

  /** The flag values once the defaults are filled in, before propagation. */
  function WithDefaults(flags: Dict<Val>, opts: Options): Dict<Val> {
    if opts.default.Some? then FillDefaultsFrom(flags, opts.default.value, 0) else flags
  }

  function Finish(st: ScanState, opts: Options, d: Directives): Argv {
    var filled := WithDefaults(st.flags, opts);
    var flags := if opts.alias.Some? then Propagated(filled, d.alias) else filled;
    Argv(st.rest, flags)
  }

  function InitialState(): ScanState {
    ScanState([], EmptyDict())
  }

  /** `parseRawArgs(args, opts)`: without an `unknown` callback nothing is
      rejected, so the parsed object is always returned. */
  function RawParse(args: seq<string>, opts: Options, rt: Runtime): (r: RawResult)
    ensures !opts.strict ==> r.Parsed?
  {
    var d := Prepare(opts);
    ScanLenient(args, 0, InitialState(), d, rt);
    match ScanFrom(args, 0, InitialState(), d, opts.strict, rt)
    case Rejected(f) => Unknown(f)
    case Finished(st) => Parsed(Finish(st, opts, d))
  }

  // ---------------------------------------------------------------------------
  // Lenient mode (src/_parser.ts:124-126, 145-147): only a strict scan rejects

  lemma {:induction false} ApplyNamesLenient(names: seq<string>, p: nat, v: FlagValue, st: ScanState,
                                             d: Directives, dashes: nat, rt: Runtime)
    requires p <= |names|
    ensures ApplyNames(names, p, v, st, d, false, dashes, rt).Applied?
    decreases |names| - p
  {
    if p < |names| {
      ApplyNamesLenient(names, p + 1, v, ToVal(st, names[p], if p + 1 < |names| then Implicit else v, d, rt),
                        d, dashes, rt);
    }
  }

  lemma {:induction false} ScanLenient(args: seq<string>, i: nat, st: ScanState, d: Directives, rt: Runtime)
    requires i <= |args|
    ensures ScanFrom(args, i, st, d, false, rt).Finished?
    decreases |args| - i
  {
    if i < |args| {
      var arg := args[i];
      var j := LeadingDashes(arg);
      var idx := EqIndex(arg, j + 1);
      var (v, next) := ValueAt(args, i, Slice(arg, idx + 1));
      ApplyNamesLenient(ClusterNames(Substring(arg, j, idx), j), 0, v, st, d, j, rt);
      var step := StepAt(args, i, st, d, false, rt);
      if step.Next? {
        ScanLenient(args, step.i, step.st, d, rt);
      }
    }
  }

  // ---------------------------------------------------------------------------
  // The imperative tokenizer

  method SymmetriseAliases(d: Dict<Arrayable<string>>) returns (m: map<string, seq<string>>)
    ensures m == SymmetriseFrom(Normalised(d), d.keys, 0)
  {
    m := Normalised(d);
    var i := 0;
    while i < |d.keys|
      invariant 0 <= i <= |d.keys|
      invariant SymmetriseFrom(m, d.keys, i) == SymmetriseFrom(Normalised(d), d.keys, 0)
    {
      var k := d.keys[i];
      var arr := AliasOf(m, k);
      m := m[k := arr];
      ghost var linked := m;
      var a := 0;
      while a < |arr|
        invariant 0 <= a <= |arr|
        invariant LinkAliases(m, arr, k, a) == LinkAliases(linked, arr, k, 0)
      {
        m := m[arr[a] := Without(arr, a) + [k]];
        a := a + 1;
      }
      i := i + 1;
    }
  }

  method ExpandBucket(bucket: seq<string>, alias: map<string, seq<string>>) returns (b: seq<string>)
    ensures b == Expanded(bucket, alias)
  {
    b := bucket;
    var i := |bucket|;
    while i > 0
      invariant 0 <= i <= |bucket| <= |b|
      invariant b[..|bucket|] == bucket
      invariant b + ExpandFrom(bucket, alias, i) == Expanded(bucket, alias)
    {
      i := i - 1;
      assert b[i] == bucket[i];
      ghost var before := b;
      b := PushReversed(b, AliasOf(alias, b[i]));
      assert b == before + Reversed(AliasOf(alias, bucket[i]));
      assert ExpandFrom(bucket, alias, i + 1) == Reversed(AliasOf(alias, bucket[i])) + ExpandFrom(bucket, alias, i);
    }
  }

  /** The inner loop of the bucket expansion: pushes `arr` last element first. */
  method PushReversed(start: seq<string>, arr: seq<string>) returns (b: seq<string>)
    ensures b == start + Reversed(arr)
  {
    b := start;
    var j := |arr|;
    while j > 0
      invariant 0 <= j <= |arr|
      invariant b == start + Reversed(arr[j..])
    {
      j := j - 1;
      assert arr[j..][1..] == arr[j + 1..];
      b := b + [arr[j]];
    }
    assert arr[0..] == arr;
  }

  method AddDefaults(d0: Directives, dflt: Dict<Val>) returns (d: Directives)
    ensures d == RegisterDefaults(d0, dflt, 0)
  {
    var alias, strings, booleans := d0.alias, d0.strings, d0.booleans;
    var i := 0;
    while i < |dflt.keys|
      invariant 0 <= i <= |dflt.keys|
      invariant RegisterDefaults(Directives(alias, strings, booleans), dflt, i) == RegisterDefaults(d0, dflt, 0)
    {
      var k := dflt.keys[i];
      var arr := AliasOf(alias, k);
      alias := alias[k := arr];
      var v := Get(dflt, k);
      if v.Str? || v.Bool? {
        var bucket := (if v.Str? then strings else booleans) + [k];
        ghost var start := bucket;
        var a := 0;
        while a < |arr|
          invariant 0 <= a <= |arr|
          invariant bucket == start + arr[..a]
        {
          bucket := bucket + [arr[a]];
          a := a + 1;
        }
        assert arr[..a] == arr;
        if v.Str? {
          strings := bucket;
        } else {
          booleans := bucket;
        }
      }
      i := i + 1;
    }
    d := Directives(alias, strings, booleans);
  }

  /** The body of the scan loop for token `i`. */
  method ScanToken(args: seq<string>, i: nat, st: ScanState, d: Directives, strict: bool, rt: Runtime)
    returns (step: Step)
    requires i < |args|
    ensures step == StepAt(args, i, st, d, strict, rt)
  {
    var arg := args[i];
    if arg == "--" {
      return Halt(ScanState(st.rest + Wrap(args[i + 1..]), st.flags));
    }
    var j := 0;
    while j < |arg| && arg[j] == '-'
      invariant 0 <= j <= |arg|
      invariant forall k :: 0 <= k < j ==> arg[k] == '-'
    {
      j := j + 1;
    }
    assert j == LeadingDashes(arg);
    if j == 0 {
      return Next(ScanState(st.rest + [Str(arg)], st.flags), i + 1);
    }
    if Substring(arg, j, j + 3) == "no-" {
      var name := Slice(arg, j + 3);
      if strict && name !in d.alias {
        return Reject(arg);
      }
      return Next(ScanState(st.rest, st.flags.Put(name, Bool(false))), i + 1);
    }
    step := ScanFlag(args, i, j, st, d, strict, rt);
  }

  /** The flag branch of the scan loop's body. */
  method ScanFlag(args: seq<string>, i: nat, j: nat, st: ScanState, d: Directives, strict: bool, rt: Runtime)
    returns (step: Step)
    requires i < |args|
    ensures step == FlagStep(args, i, j, st, d, strict, rt)
  {
    var arg := args[i];
    var idx := FindEq(arg, j + 1);
    var v, next := TakeValue(args, i, Slice(arg, idx + 1));
    var names := ClusterNames(Substring(arg, j, idx), j);
    var c := ApplyNamesInOrder(names, v, st, d, strict, j, rt);
    match c
    case Refused(f) => return Reject(f);
    case Applied(st') => return Next(st', next);
  }

  /** The search for the `=` of a flag token. */
  method FindEq(arg: string, from: nat) returns (idx: nat)
    ensures idx == EqIndex(arg, from)
  {
    idx := from;
    while idx < |arg| && arg[idx] != '='
      invariant from <= idx
      invariant idx <= |arg| || idx == from
      invariant forall k :: from <= k < idx && k < |arg| ==> arg[k] != '='
    {
      idx := idx + 1;
    }
    assert idx == EqIndex(arg, from);
  }

  /** The value of the flag at token `i`, and where scanning resumes. */
  method TakeValue(args: seq<string>, i: nat, inline: string) returns (v: FlagValue, next: nat)
    requires i < |args|
    ensures (v, next) == ValueAt(args, i, inline)
  {
    if inline != "" {
      v, next := Given(inline), i + 1;
    } else if i + 1 == |args| || StartsWithDash(args[i + 1]) {
      v, next := Implicit, i + 1;
    } else {
      v, next := Given(args[i + 1]), i + 2;
    }
  }

  /** The loop over the names of one flag token. */
  method ApplyNamesInOrder(names: seq<string>, v: FlagValue, st: ScanState, d: Directives,
                           strict: bool, dashes: nat, rt: Runtime) returns (c: Cluster)
    ensures c == ApplyNames(names, 0, v, st, d, strict, dashes, rt)
  {
    var cur := st;
    var p := 0;
    while p < |names|
      invariant 0 <= p <= |names|
      invariant ApplyNames(names, p, v, cur, d, strict, dashes, rt) == ApplyNames(names, 0, v, st, d, strict, dashes, rt)
    {
      if strict && names[p] !in d.alias {
        return Refused(Dashes(dashes) + names[p]);
      }
      cur := ToVal(cur, names[p], if p + 1 < |names| then Implicit else v, d, rt);
      p := p + 1;
    }
    return Applied(cur);
  }

  method ScanTokens(args: seq<string>, d: Directives, strict: bool, rt: Runtime) returns (res: ScanResult)
    ensures res == ScanFrom(args, 0, InitialState(), d, strict, rt)
  {
    var st := InitialState();
    var i := 0;
    while i < |args|
      invariant 0 <= i <= |args|
      invariant ScanFrom(args, i, st, d, strict, rt) == ScanFrom(args, 0, InitialState(), d, strict, rt)
      decreases |args| - i
    {
      var step := ScanToken(args, i, st, d, strict, rt);
      match step
      case Halt(st') =>
        return Finished(st');
      case Reject(f) =>
        return Rejected(f);
      case Next(st', i') =>
        st, i := st', i';
    }
    return Finished(st);
  }

  method FillDefaults(flags0: Dict<Val>, dflt: Dict<Val>) returns (flags: Dict<Val>)
    ensures flags == FillDefaultsFrom(flags0, dflt, 0)
  {
    flags := flags0;
    var i := 0;
    while i < |dflt.keys|
      invariant 0 <= i <= |dflt.keys|
      invariant FillDefaultsFrom(flags, dflt, i) == FillDefaultsFrom(flags0, dflt, 0)
    {
      var k := dflt.keys[i];
      if Get(flags, k) == Undef {
        flags := flags.Put(k, Get(dflt, k));
      }
      i := i + 1;
    }
  }

  method PropagateAliases(flags0: Dict<Val>, alias: map<string, seq<string>>) returns (flags: Dict<Val>)
    ensures flags == Propagated(flags0, alias)
  {
    flags := flags0;
    var keys := flags0.keys;
    var i := 0;
    while i < |keys|
      invariant 0 <= i <= |keys|
      invariant PropagateFrom(flags, keys, alias, i) == Propagated(flags0, alias)
    {
      var k := keys[i];
      var arr := AliasOf(alias, k);
      ghost var start := flags;
      var p := 0;
      while p < |arr|
        invariant 0 <= p <= |arr|
        invariant CopyTo(flags, arr, k, p) == CopyTo(start, arr, k, 0)
      {
        flags := flags.Put(arr[p], Get(flags, k));
        p := p + 1;
      }
      i := i + 1;
    }
  }

  /** `parseRawArgs(args, opts)` with the loops of the source. */
  method ParseRawArgs(args: seq<string>, opts: Options, rt: Runtime) returns (r: RawResult)
    ensures r == RawParse(args, opts, rt)
  {
    var alias: map<string, seq<string>> := map[];
    if opts.alias.Some? {
      alias := SymmetriseAliases(opts.alias.value);
    }
    var booleans := ExpandBucket(ToArray(opts.booleans), alias);
    var strings := ExpandBucket(ToArray(opts.strings), alias);
    var d := Directives(alias, strings, booleans);
    if opts.default.Some? {
      d := AddDefaults(d, opts.default.value);
    }
    var scanned := ScanTokens(args, d, opts.strict, rt);
    if scanned.Rejected? {
      return Unknown(scanned.flag);
    }
    var flags := scanned.st.flags;
    if opts.default.Some? {
      flags := FillDefaults(flags, opts.default.value);
    }
    if opts.alias.Some? {
      flags := PropagateAliases(flags, d.alias);
    }
    return Parsed(Argv(scanned.st.rest, flags));
  }
}
