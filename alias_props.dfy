/** The alias guarantees of the raw tokenizer: the alias map is made symmetric
    (src/_parser.ts:68-75), and after parsing every alias holds the value of
    the name it stands for (src/_parser.ts:161-168). Both need the declared
    alias groups to be disjoint, as they are for a command's argument
    definitions with distinct names and aliases. */
module AliasProps {
  import opened Js
  import opened Utils
  import opened Parser

  // ---------------------------------------------------------------------------
  // Alias groups

  /** `k` is not among its own aliases, and no alias is listed twice. */
  predicate DistinctAliases(k: string, arr: seq<string>) {
    k !in arr && forall a, b :: 0 <= a < b < |arr| ==> arr[a] != arr[b]
  }

  /** Two declared groups share no name. */
  predicate Apart(k1: string, arr1: seq<string>, k2: string, arr2: seq<string>) {
    k1 != k2 && k1 !in arr2 && k2 !in arr1 && forall x :: x in arr1 ==> x !in arr2
  }

  function Declared(d: Dict<Arrayable<string>>, i: nat): seq<string>
    requires d.Valid() && i < |d.keys|
  {
    ToArray(d.vals[d.keys[i]])
  }

  ghost predicate DisjointGroups(d: Dict<Arrayable<string>>) {
    d.Valid() &&
    (forall i :: 0 <= i < |d.keys| ==> DistinctAliases(d.keys[i], Declared(d, i))) &&
    (forall i, j :: 0 <= i < j < |d.keys| ==> Apart(d.keys[i], Declared(d, i), d.keys[j], Declared(d, j)))
  }

  /** `k` maps to its aliases, and each alias to the others plus `k`. */
  ghost predicate LinkedGroup(m: map<string, seq<string>>, k: string, arr: seq<string>) {
    k in m && m[k] == arr &&
    forall p :: 0 <= p < |arr| ==> arr[p] in m && m[arr[p]] == Without(arr, p) + [k]
  }

  ghost predicate InGroup(d: Dict<Arrayable<string>>, x: string, i: nat)
    requires d.Valid() && i < |d.keys|
  {
    x == d.keys[i] || x in Declared(d, i)
  }

  /** Every name in the map belongs to a declared group. */
  ghost predicate Covered(d: Dict<Arrayable<string>>, m: map<string, seq<string>>)
    requires d.Valid()
  {
    forall x :: x in m ==> exists j :: 0 <= j < |d.keys| && InGroup(d, x, j)
  }

  /** A name together with the names it is an alias of. */
  ghost function Members(m: map<string, seq<string>>, x: string): set<string>
    requires x in m
  {
    {x} + set z | z in m[x]
  }

  /** Every entry of the map lists the other members of one group, and every
      member of a group lists the same group. */
  ghost predicate Cliques(m: map<string, seq<string>>) {
    forall x :: x in m ==>
      x !in m[x] &&
      forall y :: y in m[x] ==> y in m && Members(m, y) == Members(m, x)
  }

  /** `y` is an alias of `x` exactly when `x` is an alias of `y`. */
  ghost predicate Symmetric(m: map<string, seq<string>>) {
    forall x, y :: x in m && y in m[x] ==> y in m && x in m[y]
  }

  // ---------------------------------------------------------------------------
  // Symmetrisation

  lemma WithoutMembers(arr: seq<string>, p: nat)
    requires p < |arr| && forall a, b :: 0 <= a < b < |arr| ==> arr[a] != arr[b]
    ensures forall z :: z in Without(arr, p) <==> z in arr && z != arr[p]
  {
    forall z
      ensures z in Without(arr, p) <==> z in arr && z != arr[p]
    {
      if z in arr && z != arr[p] {
        var q :| 0 <= q < |arr| && arr[q] == z;
        if q < p {
          assert Without(arr, p)[q] == z;
        } else {
          assert Without(arr, p)[q - 1] == z;
        }
      }
    }
  }

  lemma {:induction false} LinkAliasesEffect(m: map<string, seq<string>>, arr: seq<string>, k: string, i: nat)
    requires i <= |arr| && DistinctAliases(k, arr)
    ensures var r := LinkAliases(m, arr, k, i);
            (forall x :: x !in arr[i..] ==> (x in r <==> x in m) && (x in m ==> r[x] == m[x])) &&
            (forall p :: i <= p < |arr| ==> arr[p] in r && r[arr[p]] == Without(arr, p) + [k])
    decreases |arr| - i
  {
    if i < |arr| {
      LinkAliasesEffect(m[arr[i] := Without(arr, i) + [k]], arr, k, i + 1);
      assert arr[i..] == [arr[i]] + arr[i + 1..];
    }
  }

  /** `r` is `m` after the inner symmetrisation loop for `k` and its aliases `arr`. */
  ghost predicate LinkedOnto(m: map<string, seq<string>>, r: map<string, seq<string>>, arr: seq<string>, k: string) {
    (forall x :: x !in arr ==> (x in r <==> x in m) && (x in m ==> r[x] == m[x])) &&
    (forall p :: 0 <= p < |arr| ==> arr[p] in r && r[arr[p]] == Without(arr, p) + [k])
  }

  lemma LinkAliasesLinks(m: map<string, seq<string>>, arr: seq<string>, k: string)
    requires DistinctAliases(k, arr)
    ensures LinkedOnto(m, LinkAliases(m, arr, k, 0), arr, k)
  {
    LinkAliasesEffect(m, arr, k, 0);
    assert arr[0..] == arr;
  }

  lemma GroupUntouched(m: map<string, seq<string>>, r: map<string, seq<string>>, k: string, arr: seq<string>,
                       k': string, arr': seq<string>)
    requires LinkedOnto(m, r, arr, k) && LinkedGroup(m, k', arr') && Apart(k', arr', k, arr)
    ensures LinkedGroup(r, k', arr')
  {
    forall p | 0 <= p < |arr'|
      ensures arr'[p] in r && r[arr'[p]] == Without(arr', p) + [k']
    {
      assert arr'[p] in arr';
    }
  }

  lemma StepKeepsEarlierGroups(d: Dict<Arrayable<string>>, m: map<string, seq<string>>, r: map<string, seq<string>>, i: nat)
    requires DisjointGroups(d) && i < |d.keys|
    requires LinkedOnto(m, r, Declared(d, i), d.keys[i])
    requires forall j :: 0 <= j < i ==> LinkedGroup(m, d.keys[j], Declared(d, j))
    ensures forall j :: 0 <= j < i ==> LinkedGroup(r, d.keys[j], Declared(d, j))
  {
    forall j | 0 <= j < i
      ensures LinkedGroup(r, d.keys[j], Declared(d, j))
    {
      assert Apart(d.keys[j], Declared(d, j), d.keys[i], Declared(d, i));
      GroupUntouched(m, r, d.keys[i], Declared(d, i), d.keys[j], Declared(d, j));
    }
  }

  lemma StepKeepsLaterKeys(d: Dict<Arrayable<string>>, m: map<string, seq<string>>, r: map<string, seq<string>>, i: nat)
    requires DisjointGroups(d) && i < |d.keys|
    requires LinkedOnto(m, r, Declared(d, i), d.keys[i])
    requires forall j :: i <= j < |d.keys| ==> d.keys[j] in m && m[d.keys[j]] == Declared(d, j)
    ensures LinkedGroup(r, d.keys[i], Declared(d, i))
    ensures forall j :: i + 1 <= j < |d.keys| ==> d.keys[j] in r && r[d.keys[j]] == Declared(d, j)
  {
    assert DistinctAliases(d.keys[i], Declared(d, i));
    forall j | i < j < |d.keys|
      ensures d.keys[j] in r && r[d.keys[j]] == Declared(d, j)
    {
      assert Apart(d.keys[i], Declared(d, i), d.keys[j], Declared(d, j));
    }
  }

  lemma StepKeepsCovered(d: Dict<Arrayable<string>>, m: map<string, seq<string>>, r: map<string, seq<string>>, i: nat)
    requires DisjointGroups(d) && i < |d.keys|
    requires LinkedOnto(m, r, Declared(d, i), d.keys[i])
    requires Covered(d, m)
    ensures Covered(d, r)
  {
    forall x | x in r
      ensures exists j :: 0 <= j < |d.keys| && InGroup(d, x, j)
    {
      if x in Declared(d, i) {
        assert InGroup(d, x, i);
      }
    }
  }

  lemma {:induction false} SymmetriseEffect(d: Dict<Arrayable<string>>, m: map<string, seq<string>>, i: nat)
    requires DisjointGroups(d) && i <= |d.keys|
    requires forall j :: 0 <= j < i ==> LinkedGroup(m, d.keys[j], Declared(d, j))
    requires forall j :: i <= j < |d.keys| ==> d.keys[j] in m && m[d.keys[j]] == Declared(d, j)
    requires Covered(d, m)
    ensures var r := SymmetriseFrom(m, d.keys, i);
            (forall j :: 0 <= j < |d.keys| ==> LinkedGroup(r, d.keys[j], Declared(d, j))) &&
            Covered(d, r)
    decreases |d.keys| - i
  {
    if i < |d.keys| {
      var k := d.keys[i];
      var arr := Declared(d, i);
      assert m[k := AliasOf(m, k)] == m;
      var r := LinkAliases(m, arr, k, 0);
      assert SymmetriseFrom(m, d.keys, i) == SymmetriseFrom(r, d.keys, i + 1);
      assert DistinctAliases(k, arr);
      LinkAliasesLinks(m, arr, k);
      StepKeepsEarlierGroups(d, m, r, i);
      StepKeepsLaterKeys(d, m, r, i);
      StepKeepsCovered(d, m, r, i);
      SymmetriseEffect(d, r, i + 1);
    }
  }

  /** After symmetrisation each declared name maps to its aliases, each alias
      to the other aliases and the name, and nothing else is in the map. */
  lemma SymmetrisedGroups(d: Dict<Arrayable<string>>)
    requires DisjointGroups(d)
    ensures var r := SymmetriseFrom(Normalised(d), d.keys, 0);
            (forall j :: 0 <= j < |d.keys| ==> LinkedGroup(r, d.keys[j], Declared(d, j))) &&
            Covered(d, r)
  {
    var m := Normalised(d);
    forall x | x in m
      ensures exists j :: 0 <= j < |d.keys| && InGroup(d, x, j)
    {
      var j :| 0 <= j < |d.keys| && d.keys[j] == x;
      assert InGroup(d, x, j);
    }
    SymmetriseEffect(d, m, 0);
  }

  /** The symmetrised alias map consists of cliques. */
  lemma SymmetrisedAliasesAreCliques(d: Dict<Arrayable<string>>)
    requires DisjointGroups(d)
    ensures Cliques(SymmetriseFrom(Normalised(d), d.keys, 0))
  {
    var r := SymmetriseFrom(Normalised(d), d.keys, 0);
    SymmetrisedGroups(d);
    forall x | x in r
      ensures x !in r[x] && forall y :: y in r[x] ==> y in r && Members(r, y) == Members(r, x)
    {
      var j :| 0 <= j < |d.keys| && InGroup(d, x, j);
      GroupIsClique(r, d.keys[j], Declared(d, j), x);
    }
  }

  /** Inside one linked group all members list the same group. */
  lemma GroupIsClique(r: map<string, seq<string>>, k: string, arr: seq<string>, x: string)
    requires LinkedGroup(r, k, arr) && DistinctAliases(k, arr) && (x == k || x in arr)
    ensures x in r && x !in r[x]
    ensures forall y :: y in r[x] ==> y in r && Members(r, y) == Members(r, x)
  {
    var whole := {k} + set z | z in arr;
    assert Members(r, k) == whole;
    forall p | 0 <= p < |arr|
      ensures Members(r, arr[p]) == whole
    {
      WithoutMembers(arr, p);
    }
    if x != k {
      var p :| 0 <= p < |arr| && arr[p] == x;
      WithoutMembers(arr, p);
    }
    forall y | y in r[x]
      ensures y in r && Members(r, y) == Members(r, x)
    {
      if x != k {
        var p :| 0 <= p < |arr| && arr[p] == x;
        WithoutMembers(arr, p);
      }
      if y != k {
        var q :| 0 <= q < |arr| && arr[q] == y;
      }
    }
  }

  /** A map of cliques is symmetric. */
  lemma CliquesAreSymmetric(m: map<string, seq<string>>)
    requires Cliques(m)
    ensures Symmetric(m)
  {
    forall x, y | x in m && y in m[x]
      ensures y in m && x in m[y]
    {
      assert x in Members(m, x);
    }
  }

  /** Symmetrisation: every declared alias `a` of `k` maps back to `k`, and
      `y` is an alias of `x` exactly when `x` is an alias of `y`. */
  lemma AliasesAreSymmetric(opts: Options)
    requires opts.alias.Some? && DisjointGroups(opts.alias.value)
    ensures var m := SymmetrisedAliases(opts);
            var d := opts.alias.value;
            Symmetric(m) &&
            forall j, a :: 0 <= j < |d.keys| && a in Declared(d, j) ==> a in m && d.keys[j] in m[a]
  {
    var d := opts.alias.value;
    var m := SymmetrisedAliases(opts);
    SymmetrisedAliasesAreCliques(d);
    CliquesAreSymmetric(m);
    SymmetrisedGroups(d);
    forall j, a | 0 <= j < |d.keys| && a in Declared(d, j)
      ensures a in m && d.keys[j] in m[a]
    {
      assert LinkedGroup(m, d.keys[j], Declared(d, j));
    }
  }

  // ---------------------------------------------------------------------------
  // Defaults registration keeps the groups

  lemma {:induction false} RegisterDefaultsKeepsCliques(d: Directives, dflt: Dict<Val>, i: nat)
    requires i <= |dflt.keys| && Cliques(d.alias)
    ensures var a := RegisterDefaults(d, dflt, i).alias;
            Cliques(a) && forall x :: x in d.alias ==> x in a && a[x] == d.alias[x]
    decreases |dflt.keys| - i
  {
    if i < |dflt.keys| {
      var k := dflt.keys[i];
      var alias := d.alias[k := AliasOf(d.alias, k)];
      if k !in d.alias {
        forall x | x in d.alias
          ensures k !in d.alias[x]
        {
        }
        assert forall x :: x in d.alias ==> Members(alias, x) == Members(d.alias, x);
      } else {
        assert alias == d.alias;
      }
      var v := Get(dflt, k);
      var next :=
        if v.Str? then Directives(alias, d.strings + [k] + AliasOf(d.alias, k), d.booleans)
        else if v.Bool? then Directives(alias, d.strings, d.booleans + [k] + AliasOf(d.alias, k))
        else Directives(alias, d.strings, d.booleans);
      RegisterDefaultsKeepsCliques(next, dflt, i + 1);
    }
  }

  /** The alias map the scan and the propagation use is made of cliques, and
      holds every declared group. */
  lemma PreparedAliases(opts: Options)
    requires opts.alias.Some? && DisjointGroups(opts.alias.value)
    ensures var a := Prepare(opts).alias;
            var d := opts.alias.value;
            Cliques(a) &&
            forall j, x :: 0 <= j < |d.keys| && x in Declared(d, j) ==> d.keys[j] in a && x in a[d.keys[j]]
  {
    var d := opts.alias.value;
    var m := SymmetrisedAliases(opts);
    SymmetrisedAliasesAreCliques(d);
    SymmetrisedGroups(d);
    var d0 := Directives(m, Expanded(ToArray(opts.strings), m), Expanded(ToArray(opts.booleans), m));
    if opts.default.Some? {
      RegisterDefaultsKeepsCliques(d0, opts.default.value, 0);
    }
    var a := Prepare(opts).alias;
    forall j, x | 0 <= j < |d.keys| && x in Declared(d, j)
      ensures d.keys[j] in a && x in a[d.keys[j]]
    {
      assert LinkedGroup(m, d.keys[j], Declared(d, j));
    }
  }

  // ---------------------------------------------------------------------------
  // Propagation

  lemma SameOrDisjoint(m: map<string, seq<string>>, x: string, y: string, z: string)
    requires Cliques(m) && x in m && y in m && z in Members(m, x) && z in Members(m, y)
    ensures Members(m, x) == Members(m, y)
  {
  }

  lemma {:induction false} CopyToEffect(flags: Dict<Val>, targets: seq<string>, k: string, p: nat)
    requires p <= |targets| && k !in targets
    ensures var r := CopyTo(flags, targets, k, p);
            (forall t :: t in targets[p..] ==> Get(r, t) == Get(flags, k)) &&
            (forall x :: x !in targets[p..] ==> Get(r, x) == Get(flags, x))
    decreases |targets| - p
  {
    if p < |targets| {
      CopyToEffect(flags.Put(targets[p], Get(flags, k)), targets, k, p + 1);
      assert targets[p..] == [targets[p]] + targets[p + 1..];
    }
  }

  /** The first name of `s` that belongs to `g`, if any. */
  ghost function FirstIn(s: seq<string>, g: set<string>): Option<string>
    decreases |s|
  {
    if |s| == 0 then None
    else match FirstIn(s[..|s| - 1], g)
      case Some(m) => Some(m)
      case None => if s[|s| - 1] in g then Some(s[|s| - 1]) else None
  }

  /** `FirstIn` finds the earliest name of `s` that is in `g`, and finds
      nothing exactly when no name of `s` is in `g`. */
  lemma {:induction false} FirstInSpec(s: seq<string>, g: set<string>)
    ensures FirstIn(s, g).None? <==> forall i :: 0 <= i < |s| ==> s[i] !in g
    ensures FirstIn(s, g).Some? ==>
              exists i :: 0 <= i < |s| && s[i] == FirstIn(s, g).value && s[i] in g &&
                          forall j :: 0 <= j < i ==> s[j] !in g
    decreases |s|
  {
    if |s| > 0 {
      var front := s[..|s| - 1];
      FirstInSpec(front, g);
      assert forall i :: 0 <= i < |front| ==> front[i] == s[i];
      if FirstIn(front, g).Some? {
        var i :| 0 <= i < |front| && front[i] == FirstIn(front, g).value && front[i] in g &&
                 forall j :: 0 <= j < i ==> front[j] !in g;
        assert s[i] == FirstIn(s, g).value;
      } else if s[|s| - 1] in g {
        assert s[|s| - 1] == FirstIn(s, g).value;
      }
    }
  }

  /** The group of `x` holds, in `after`, the value its first member in
      `order` had in `before`; with no member in `order` it is as it was. */
  ghost predicate GroupTakesFirst(alias: map<string, seq<string>>, before: Dict<Val>, after: Dict<Val>,
                                  order: seq<string>, x: string)
    requires x in alias
  {
    var g := Members(alias, x);
    match FirstIn(order, g)
    case Some(m) => forall z :: z in g ==> Get(after, z) == Get(before, m)
    case None => forall z :: z in g ==> Get(after, z) == Get(before, z)
  }

  /** Every group takes the value of its first member in `order`, and a name
      in no group keeps its value. */
  ghost predicate TakesFirst(alias: map<string, seq<string>>, before: Dict<Val>, after: Dict<Val>, order: seq<string>) {
    (forall y :: y !in alias ==> Get(after, y) == Get(before, y)) &&
    forall x :: x in alias ==> GroupTakesFirst(alias, before, after, order, x)
  }

  lemma FirstInStep(done: seq<string>, k: string, g: set<string>)
    ensures FirstIn(done + [k], g) ==
              if FirstIn(done, g).Some? then FirstIn(done, g) else if k in g then Some(k) else None
  {
    assert (done + [k])[..|done|] == done;
  }

  /** One turn of the propagation loop keeps `TakesFirst` over the keys visited. */
  lemma PropagateStep(alias: map<string, seq<string>>, flags: Dict<Val>, flags0: Dict<Val>, done: seq<string>, k: string)
    requires Cliques(alias) && TakesFirst(alias, flags0, flags, done)
    ensures TakesFirst(alias, flags0, CopyTo(flags, AliasOf(alias, k), k, 0), done + [k])
  {
    var targets := AliasOf(alias, k);
    var r := CopyTo(flags, targets, k, 0);
    CopyToEffect(flags, targets, k, 0);
    assert targets[0..] == targets;
    forall y | y !in alias
      ensures Get(r, y) == Get(flags0, y)
    {
      assert y !in targets;
    }
    forall x | x in alias
      ensures GroupTakesFirst(alias, flags0, r, done + [k], x)
    {
      var g := Members(alias, x);
      FirstInStep(done, k, g);
      assert GroupTakesFirst(alias, flags0, flags, done, x);
      if k in g {
        SameOrDisjoint(alias, x, k, k);
        forall z | z in g
          ensures Get(r, z) == Get(flags, k)
        {
        }
      } else {
        forall t | t in targets
          ensures t !in g
        {
          if t in g {
            SameOrDisjoint(alias, x, k, t);
          }
        }
        assert forall z :: z in g ==> Get(r, z) == Get(flags, z);
      }
    }
  }

  lemma {:induction false} PropagateEffect(alias: map<string, seq<string>>, flags: Dict<Val>, keys: seq<string>,
                                           i: nat, flags0: Dict<Val>)
    requires Cliques(alias) && i <= |keys| && TakesFirst(alias, flags0, flags, keys[..i])
    ensures TakesFirst(alias, flags0, PropagateFrom(flags, keys, alias, i), keys)
    decreases |keys| - i
  {
    if i < |keys| {
      PropagateStep(alias, flags, flags0, keys[..i], keys[i]);
      assert keys[..i] + [keys[i]] == keys[..i + 1];
      PropagateEffect(alias, CopyTo(flags, AliasOf(alias, keys[i]), keys[i], 0), keys, i + 1, flags0);
    } else {
      assert keys[..i] == keys;
    }
  }

  /** After propagation every group holds the value of its first member among
      the keys present when the loop starts (or is as it was when none is
      present), so all names of a group agree; names in no group are left
      alone. */
  lemma PropagatedGroupsAgree(flags: Dict<Val>, alias: map<string, seq<string>>)
    requires flags.Valid() && Cliques(alias)
    ensures var r := Propagated(flags, alias);
            TakesFirst(alias, flags, r, flags.keys) &&
            forall x, y :: x in alias && y in alias[x] ==> Get(r, x) == Get(r, y)
  {
    var r := Propagated(flags, alias);
    assert flags.keys[..0] == [];
    PropagateEffect(alias, flags, flags.keys, 0, flags);
    forall x, y | x in alias && y in alias[x]
      ensures Get(r, x) == Get(r, y)
    {
      var g := Members(alias, x);
      assert x in g && y in g;
      assert GroupTakesFirst(alias, flags, r, flags.keys, x);
      match FirstIn(flags.keys, g)
      case Some(m) =>
        assert Get(r, x) == Get(flags, m) == Get(r, y);
      case None =>
        FirstInSpec(flags.keys, g);
        assert Get(r, x) == Get(flags, x) == Undef == Get(flags, y) == Get(r, y);
    }
  }

  // ---------------------------------------------------------------------------
  // The flag object stays well formed

  lemma {:induction false} ApplyNamesValid(names: seq<string>, p: nat, v: FlagValue, st: ScanState, d: Directives,
                                           strict: bool, dashes: nat, rt: Runtime)
    requires p <= |names| && st.flags.Valid()
    ensures var c := ApplyNames(names, p, v, st, d, strict, dashes, rt);
            c.Applied? ==> c.st.flags.Valid()
    decreases |names| - p
  {
    if p < |names| {
      ApplyNamesValid(names, p + 1, v, ToVal(st, names[p], if p + 1 < |names| then Implicit else v, d, rt),
                      d, strict, dashes, rt);
    }
  }

  lemma StepValid(args: seq<string>, i: nat, st: ScanState, d: Directives, strict: bool, rt: Runtime)
    requires i < |args| && st.flags.Valid()
    ensures var r := StepAt(args, i, st, d, strict, rt);
            !r.Reject? ==> r.st.flags.Valid()
  {
    var arg := args[i];
    var j := LeadingDashes(arg);
    if arg != "--" && j != 0 && Substring(arg, j, j + 3) != "no-" {
      FlagStepValid(args, i, j, st, d, strict, rt);
    }
  }

  lemma FlagStepValid(args: seq<string>, i: nat, j: nat, st: ScanState, d: Directives, strict: bool, rt: Runtime)
    requires i < |args| && st.flags.Valid()
    ensures var r := FlagStep(args, i, j, st, d, strict, rt);
            r.Next? ==> r.st.flags.Valid()
  {
    var arg := args[i];
    var idx := EqIndex(arg, j + 1);
    var v := ValueAt(args, i, Slice(arg, idx + 1)).0;
    ApplyNamesValid(ClusterNames(Substring(arg, j, idx), j), 0, v, st, d, strict, j, rt);
  }

  lemma {:induction false} ScanValid(args: seq<string>, i: nat, st: ScanState, d: Directives, strict: bool, rt: Runtime)
    requires i <= |args| && st.flags.Valid()
    ensures var r := ScanFrom(args, i, st, d, strict, rt);
            r.Finished? ==> r.st.flags.Valid()
    decreases |args| - i
  {
    if i < |args| {
      StepValid(args, i, st, d, strict, rt);
      var step := StepAt(args, i, st, d, strict, rt);
      if step.Next? {
        ScanValid(args, step.i, step.st, d, strict, rt);
      }
    }
  }

  lemma {:induction false} FillDefaultsValid(flags: Dict<Val>, dflt: Dict<Val>, i: nat)
    requires i <= |dflt.keys| && flags.Valid()
    ensures FillDefaultsFrom(flags, dflt, i).Valid()
    decreases |dflt.keys| - i
  {
    if i < |dflt.keys| {
      var k := dflt.keys[i];
      FillDefaultsValid(if Get(flags, k) == Undef then flags.Put(k, Get(dflt, k)) else flags, dflt, i + 1);
    }
  }

  /** Alias propagation: after a parse with disjoint alias groups, every
      group holds the value its first member present after the scan and the
      defaults had (a group with no member present stays absent), names in
      no group keep their value, and so every name and each of its aliases
      hold the same value. */
  lemma AliasesShareValues(args: seq<string>, opts: Options, rt: Runtime)
    requires opts.alias.Some? && DisjointGroups(opts.alias.value)
    ensures var r := RawParse(args, opts, rt);
            var alias := Prepare(opts).alias;
            var scanned := ScanFrom(args, 0, InitialState(), Prepare(opts), opts.strict, rt);
            var d := opts.alias.value;
            r.Parsed? ==>
              scanned.Finished? &&
              (var before := WithDefaults(scanned.st.flags, opts);
               TakesFirst(alias, before, r.argv.flags, before.keys)) &&
              (forall x, y :: x in alias && y in alias[x] ==> Get(r.argv.flags, x) == Get(r.argv.flags, y)) &&
              (forall j, a :: 0 <= j < |d.keys| && a in Declared(d, j) ==>
                 Get(r.argv.flags, a) == Get(r.argv.flags, d.keys[j]))
  {
    var dirs := Prepare(opts);
    var scanned := ScanFrom(args, 0, InitialState(), dirs, opts.strict, rt);
    if scanned.Finished? {
      ScanValid(args, 0, InitialState(), dirs, opts.strict, rt);
      var filled := WithDefaults(scanned.st.flags, opts);
      if opts.default.Some? {
        FillDefaultsValid(scanned.st.flags, opts.default.value, 0);
      }
      PreparedAliases(opts);
      PropagatedGroupsAgree(filled, dirs.alias);
    }
  }
  /** test/parser.test.ts:36-46: `-n John` with `n` an alias of `name` sets
      both names to "John" and leaves `_` empty. */
  lemma ShortAliasSetsBoth(rt: Runtime)
    requires rt.toNumber("John") == None
    ensures var opts := Options(Absent, Absent, Some(Dict(["n"], map["n" := Single("name")])), None, false);
            var r := RawParse(["-n", "John"], opts, rt);
            r.Parsed? && r.argv.rest == [] &&
            Get(r.argv.flags, "n") == Str("John") && Get(r.argv.flags, "name") == Str("John")
  {
    var opts := Options(Absent, Absent, Some(Dict(["n"], map["n" := Single("name")])), None, false);
    var alias := map["n" := ["name"], "name" := ["n"]];
    var d := Directives(alias, [], []);
    ShortAliasOptions();
    var st := ScanState([], Dict(["n"], map["n" := Str("John")]));
    ShortAliasScan(d, rt);
    assert Propagated(st.flags, alias).vals == map["n" := Str("John"), "name" := Str("John")];
  }

  lemma ShortAliasOptions()
    ensures Prepare(Options(Absent, Absent, Some(Dict(["n"], map["n" := Single("name")])), None, false)) ==
            Directives(map["n" := ["name"], "name" := ["n"]], [], [])
  {
    var opts := Options(Absent, Absent, Some(Dict(["n"], map["n" := Single("name")])), None, false);
    var m0 := Normalised(opts.alias.value);
    assert m0 == map["n" := ["name"]];
    var alias := map["n" := ["name"], "name" := ["n"]];
    assert Without(["name"], 0) + ["n"] == ["n"];
    assert "n" != "name";
    assert m0["name" := ["n"]] == alias;
    assert LinkAliases(m0, ["name"], "n", 0) == LinkAliases(alias, ["name"], "n", 1) == alias;
    assert SymmetrisedAliases(opts) == alias;
  }

  lemma ShortAliasScan(d: Directives, rt: Runtime)
    requires rt.toNumber("John") == None && d.strings == [] && d.booleans == []
    ensures ScanFrom(["-n", "John"], 0, InitialState(), d, false, rt) ==
            Finished(ScanState([], Dict(["n"], map["n" := Str("John")])))
  {
    var args := ["-n", "John"];
    assert LeadingDashes("-n") == 1;
    assert Substring("-n", 1, 4) == "n";
    assert EqIndex("-n", 2) == 2;
    assert ClusterNames(Substring("-n", 1, 2), 1) == ["n"];
    var st := ToVal(InitialState(), "n", Given("John"), d, rt);
    assert st == ScanState([], Dict(["n"], map["n" := Str("John")]));
    assert ValueAt(args, 0, Slice("-n", 3)) == (Given("John"), 2);
    assert ApplyNames(["n"], 0, Given("John"), InitialState(), d, false, 1, rt) == Applied(st);
    assert StepAt(args, 0, InitialState(), d, false, rt) == Next(st, 2);
  }
}
