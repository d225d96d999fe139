/** Rejection of undeclared options (src/validate.ts). */
module Validate {
  import opened Js
  import opened Types
  import opened Utils
  import opened Parser

  /** `x` is a declared argument name or one of the aliases declared for it. */
  ghost predicate Allowed(defs: Dict<ArgDef>, x: string)
    requires defs.Valid()
  {
    exists j :: 0 <= j < |defs.keys| && (x == defs.keys[j] || x in ToArray(defs.vals[defs.keys[j]].alias))
  }

  /** The error for an undeclared key: `--key`, or `-k` for a one-character key. */
  function UnknownOption(key: string): (e: CliError)
    ensures e.code == Some("E_UNKNOWN_OPTION")
    ensures |key| > 1 ==> e.message == "Unknown option `--" + key + "`"
    ensures |key| <= 1 ==> e.message == "Unknown option `-" + key + "`"
  {
    Fail("Unknown option `" + (if |key| > 1 then "--" + key else "-" + key) + "`", "E_UNKNOWN_OPTION")
  }

  /** `validateUnknownOptions(argsDef, args)`: returns normally (`None`) when
      every key of the parsed object other than `_` is declared, and
      otherwise throws for the first undeclared key in iteration order. The
      parsed object is a value here, so it is left as it was. */
  method ValidateUnknownOptions(defs: Dict<ArgDef>, args: Argv) returns (r: Option<CliError>)
    requires defs.Valid()
    ensures r.None? <==> forall k :: k in args.flags.keys ==> k == "_" || Allowed(defs, k)
    ensures r.Some? ==>
              exists i :: 0 <= i < |args.flags.keys| &&
                          args.flags.keys[i] != "_" && !Allowed(defs, args.flags.keys[i]) &&
                          (forall j :: 0 <= j < i ==> args.flags.keys[j] == "_" || Allowed(defs, args.flags.keys[j])) &&
                          r.value == UnknownOption(args.flags.keys[i])
  {
    var names: seq<string> := [];
    for i := 0 to |defs.keys|
      invariant forall x :: x in names <==>
                  exists j :: 0 <= j < i && (x == defs.keys[j] || x in ToArray(defs.vals[defs.keys[j]].alias))
    {
      names := names + [defs.keys[i]] + ToArray(defs.vals[defs.keys[i]].alias);
    }
    assert forall x :: x in names <==> Allowed(defs, x);
    var keys := args.flags.keys;
    for i := 0 to |keys|
      invariant forall j :: 0 <= j < i ==> keys[j] == "_" || Allowed(defs, keys[j])
    {
      var arg := keys[i];
      if arg == "_" {
        continue;
      }
      if arg !in names {
        return Some(UnknownOption(arg));
      }
    }
    return None;
  }
}
