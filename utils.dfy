/** Small helpers shared by the parser, the dispatcher and the usage renderer
    (src/_utils.ts). */
module Utils {
  import opened Js
  import opened Types

  /** `toArray`: an array as it is, `undefined` as `[]`, anything else wrapped. */
  function ToArray(a: Arrayable<string>): (r: seq<string>)
    ensures a.Array? ==> r == a.xs
    ensures !a.Array? ==> |r| <= 1
    ensures forall x :: x in r <==> (a.Single? && x == a.x) || (a.Array? && x in a.xs)
  {
    match a
    case Absent => []
    case Single(x) => [x]
    case Array(xs) => xs
  }

  /** The error the core throws for user mistakes; its `name` is always "CLIError". */
  datatype CliError = CliError(message: string, code: Option<string>)
  {
    function Name(): string { "CLIError" }
  }

  /** `new CLIError(message, code)`: keeps the message and the code. */
  function Fail(message: string, code: string): (e: CliError)
    ensures e.message == message && e.code == Some(code) && e.Name() == "CLIError"
  {
    CliError(message, Some(code))
  }

  // ---------------------------------------------------------------------------
  // resolveValue

  /** A field given either as a value or as a zero-argument producer. */
  datatype Resolvable<T> = Value(v: T) | Thunk(produce: () -> T)

  function ResolveValue<T>(r: Resolvable<T>): (v: T)
    ensures r.Value? ==> v == r.v
    ensures r.Thunk? ==> v == r.produce()
  {
    match r
    case Value(x) => x
    case Thunk(f) => f()
  }

  // ---------------------------------------------------------------------------
  // formatLineColumns

  function Max(a: nat, b: nat): nat { if a < b then b else a }

  /** The number of columns: the length of the longest row. */
  function MaxRowLength(lines: seq<seq<string>>): (n: nat)
    ensures forall r :: 0 <= r < |lines| ==> |lines[r]| <= n
    ensures |lines| == 0 ==> n == 0
    ensures |lines| > 0 ==> exists r :: 0 <= r < |lines| && |lines[r]| == n
  {
    if |lines| == 0 then 0
    else
      var n := Max(MaxRowLength(lines[..|lines| - 1]), |lines[|lines| - 1]|);
      assert forall r :: 0 <= r < |lines| - 1 ==> lines[..|lines| - 1][r] == lines[r];
      n
  }

  /** The widest cell of column `c` (0 when no row reaches column `c`). */
  function MaxCell(lines: seq<seq<string>>, c: nat): (n: nat)
    ensures forall r :: 0 <= r < |lines| && c < |lines[r]| ==> |lines[r][c]| <= n
  {
    if |lines| == 0 then 0
    else
      var init := lines[..|lines| - 1];
      var last := lines[|lines| - 1];
      assert forall r :: 0 <= r < |lines| - 1 ==> init[r] == lines[r];
      Max(MaxCell(init, c), if c < |last| then |last[c]| else 0)
  }

  /** Some row that reaches column `c` holds a cell exactly as wide as `MaxCell`. */
  lemma {:induction false} MaxCellAttained(lines: seq<seq<string>>, c: nat)
    requires exists r :: 0 <= r < |lines| && c < |lines[r]|
    ensures exists r :: 0 <= r < |lines| && c < |lines[r]| && |lines[r][c]| == MaxCell(lines, c)
  {
    var init := lines[..|lines| - 1];
    var last := lines[|lines| - 1];
    assert forall r :: 0 <= r < |lines| - 1 ==> init[r] == lines[r];
    if c < |last| && MaxCell(init, c) <= |last[c]| {
      assert |lines[|lines| - 1][c]| == MaxCell(lines, c);
    } else {
      var r0 :| 0 <= r0 < |lines| && c < |lines[r0]|;
      if r0 == |lines| - 1 {
        assert c < |last|;
        assert MaxCell(init, c) > |last[c]|;
        assert MaxCell(init, c) > 0;
        MaxCellZero(init, c);
      }
      assert exists r :: 0 <= r < |init| && c < |init[r]|;
      MaxCellAttained(init, c);
      var r :| 0 <= r < |init| && c < |init[r]| && |init[r][c]| == MaxCell(init, c);
      assert lines[r] == init[r];
    }
  }

  /** A column nobody reaches has width 0. */
  lemma {:induction false} MaxCellZero(lines: seq<seq<string>>, c: nat)
    requires MaxCell(lines, c) > 0
    ensures exists r :: 0 <= r < |lines| && c < |lines[r]|
  {
    var init := lines[..|lines| - 1];
    var last := lines[|lines| - 1];
    if !(c < |last|) {
      MaxCellZero(init, c);
      var r :| 0 <= r < |init| && c < |init[r]|;
      assert lines[r] == init[r];
    } else {
      assert c < |lines[|lines| - 1]|;
    }
  }

  /** The width of every column: the longest cell found in it. */
  function ColumnWidths(lines: seq<seq<string>>): (w: seq<nat>)
    ensures |w| == MaxRowLength(lines)
    ensures forall r, c :: 0 <= r < |lines| && 0 <= c < |lines[r]| ==> |lines[r][c]| <= w[c]
  {
    seq(MaxRowLength(lines), c requires 0 <= c => MaxCell(lines, c))
  }

  /** No column is wider than it needs to be: some cell attains its width. */
  lemma WidthAttained(lines: seq<seq<string>>, c: nat)
    requires c < |ColumnWidths(lines)|
    ensures exists r :: 0 <= r < |lines| && c < |lines[r]| && |lines[r][c]| == ColumnWidths(lines)[c]
  {
    var r :| 0 <= r < |lines| && |lines[r]| == MaxRowLength(lines);
    assert c < |lines[r]|;
    MaxCellAttained(lines, c);
  }

  /** The nested loop of `formatLineColumns` that fills `maxLength`. */
  method ComputeColumnWidths(lines: seq<seq<string>>) returns (w: seq<nat>)
    ensures w == ColumnWidths(lines)
  {
    w := [];
    var r := 0;
    while r < |lines|
      invariant 0 <= r <= |lines|
      invariant |w| == MaxRowLength(lines[..r])
      invariant forall c :: 0 <= c < |w| ==> w[c] == MaxCell(lines[..r], c)
    {
      var row := lines[r];
      assert lines[..r + 1][..r] == lines[..r];
      var i := 0;
      while i < |row|
        invariant 0 <= i <= |row|
        invariant |w| == Max(MaxRowLength(lines[..r]), i)
        invariant forall c :: 0 <= c < i ==> w[c] == MaxCell(lines[..r + 1], c)
        invariant forall c :: i <= c < |w| ==> w[c] == MaxCell(lines[..r], c)
      {
        var prev := if i < |w| then w[i] else 0;
        if i < |w| {
          assert prev == MaxCell(lines[..r], i);
        } else {
          MaxCellBeyond(lines[..r], i);
        }
        var m := Max(prev, |row[i]|);
        if i < |w| { w := w[i := m]; } else { w := w + [m]; }
        i := i + 1;
      }
      forall c | i <= c < |w|
        ensures w[c] == MaxCell(lines[..r + 1], c)
      {
      }
      r := r + 1;
    }
    assert lines[..r] == lines;
  }

  lemma MaxCellBeyond(lines: seq<seq<string>>, c: nat)
    requires MaxRowLength(lines) <= c
    ensures MaxCell(lines, c) == 0
  {
    if |lines| > 0 {
      var init := lines[..|lines| - 1];
      assert MaxRowLength(init) <= c;
      MaxCellBeyond(init, c);
    }
  }

  function Spaces(n: nat): (s: string)
    ensures |s| == n && forall k :: 0 <= k < n ==> s[k] == ' '
  {
    if n == 0 then "" else Spaces(n - 1) + " "
  }

  /** `s.padStart(n)` */
  function PadStart(s: string, n: nat): string {
    if |s| < n then Spaces(n - |s|) + s else s
  }

  /** `s.padEnd(n)` */
  function PadEnd(s: string, n: nat): string {
    if |s| < n then s + Spaces(n - |s|) else s
  }

  /** Padding never truncates: the cell is a suffix (start padding) or a prefix
      (end padding) of its padded form, which is exactly as long as the larger of
      the cell and the width. */
  lemma PaddingKeepsCell(s: string, n: nat)
    ensures |PadStart(s, n)| == Max(|s|, n) && PadStart(s, n)[|PadStart(s, n)| - |s|..] == s
    ensures |PadEnd(s, n)| == Max(|s|, n) && PadEnd(s, n)[..|s|] == s
  {
  }

  function WidthAt(w: seq<nat>, c: nat): nat {
    if c < |w| then w[c] else 0
  }

  /** The cells of one row: each prefixed, column 0 padded at the start, the
      others at the end, to the width of their column. */
  function PaddedCells(row: seq<string>, w: seq<nat>, prefix: string): (cells: seq<string>)
    ensures |cells| == |row|
  {
    seq(|row|, c requires 0 <= c < |row| =>
      prefix + (if c == 0 then PadStart(row[c], WidthAt(w, c)) else PadEnd(row[c], WidthAt(w, c))))
  }

  function FormattedLines(lines: seq<seq<string>>, prefix: string): (out: seq<string>)
    ensures |out| == |lines|
  {
    var w := ColumnWidths(lines);
    seq(|lines|, r requires 0 <= r < |lines| => Join(PaddedCells(lines[r], w, prefix), "  "))
  }

  /** `formatLineColumns(lines, linePrefix)`: one output line per row, cells
      joined by two spaces, rows by newlines. */
  method FormatLineColumns(lines: seq<seq<string>>, prefix: string) returns (out: string)
    ensures out == Join(FormattedLines(lines, prefix), "\n")
  {
    var w := ComputeColumnWidths(lines);
    var rendered := seq(|lines|, r requires 0 <= r < |lines| => Join(PaddedCells(lines[r], w, prefix), "  "));
    out := Join(rendered, "\n");
  }

  /** A padded cell is aligned: exactly as long as the prefix plus the
      column's `width`, starting with the prefix, and keeping the original
      cell `s` as its suffix (the first column) or right after the prefix
      (other columns). */
  predicate Aligned(cell: string, prefix: string, s: string, width: nat, first: bool) {
    |cell| == |prefix| + width && |s| <= width &&
    cell[..|prefix|] == prefix &&
    (first ==> cell[|cell| - |s|..] == s) &&
    (!first ==> cell[|prefix|..|prefix| + |s|] == s)
  }

  /** Columns line up: every padded cell of column `c` is aligned to the
      width of its column. */
  lemma ColumnsAligned(lines: seq<seq<string>>, prefix: string, r: nat, c: nat)
    requires r < |lines| && c < |lines[r]|
    ensures c < |ColumnWidths(lines)|
    ensures Aligned(PaddedCells(lines[r], ColumnWidths(lines), prefix)[c], prefix, lines[r][c], ColumnWidths(lines)[c], c == 0)
  {
    WidthFits(lines, r, c);
    CellAligned(lines[r], ColumnWidths(lines), prefix, c);
  }

  lemma WidthFits(lines: seq<seq<string>>, r: nat, c: nat)
    requires r < |lines| && c < |lines[r]|
    ensures c < |ColumnWidths(lines)| && |lines[r][c]| <= ColumnWidths(lines)[c]
  {
  }

  /** `ColumnsAligned` for one cell of a row, given a width that fits it. */
  lemma CellAligned(row: seq<string>, w: seq<nat>, prefix: string, c: nat)
    requires c < |row| && c < |w| && |row[c]| <= w[c]
    ensures Aligned(PaddedCells(row, w, prefix)[c], prefix, row[c], w[c], c == 0)
  {
    var s := row[c];
    PaddingKeepsCell(s, w[c]);
    if c == 0 {
      PrefixedSuffix(prefix, PadStart(s, w[c]), s);
    } else {
      PrefixedPrefix(prefix, PadEnd(s, w[c]), s);
    }
  }

  lemma PrefixedSuffix(prefix: string, padded: string, s: string)
    requires |s| <= |padded| && padded[|padded| - |s|..] == s
    ensures var cell := prefix + padded;
            cell[..|prefix|] == prefix && cell[|cell| - |s|..] == s
  {
    var cell := prefix + padded;
    assert cell[|cell| - |s|..] == padded[|padded| - |s|..];
  }

  lemma PrefixedPrefix(prefix: string, padded: string, s: string)
    requires |s| <= |padded| && padded[..|s|] == s
    ensures var cell := prefix + padded;
            cell[..|prefix|] == prefix && cell[|prefix|..|prefix| + |s|] == s
  {
    var cell := prefix + padded;
    assert cell[|prefix|..|prefix| + |s|] == padded[..|s|];
  }

  // ---------------------------------------------------------------------------
  // getSubCommand (the throwing variant)

  predicate HasKey(subs: seq<SubEntry>, name: string) {
    exists k :: 0 <= k < |subs| && subs[k].name == name
  }

  /** The entry of `subs` under key `name`, an own key first, else the first
      command (in declaration order) whose command-level `alias` contains `name`;
      an unknown name is a `CLIError` with code E_UNKNOWN_COMMAND. */
  method GetSubCommand(subs: seq<SubEntry>, name: string) returns (r: Result<Command, CliError>)
    ensures HasKey(subs, name) ==>
              exists k :: 0 <= k < |subs| && subs[k].name == name && r == Ok(subs[k].cmd) &&
                          forall m :: 0 <= m < k ==> subs[m].name != name
    ensures !HasKey(subs, name) && r.Ok? ==>
              exists k :: 0 <= k < |subs| && name in ToArray(subs[k].cmd.alias) && r.value == subs[k].cmd &&
                          forall m :: 0 <= m < k ==> name !in ToArray(subs[m].cmd.alias)
    ensures r.Err? <==> !HasKey(subs, name) && forall k :: 0 <= k < |subs| ==> name !in ToArray(subs[k].cmd.alias)
    ensures r.Err? ==> r.error == Fail("Unknown command `" + name + "`", "E_UNKNOWN_COMMAND")
  {
    var k := 0;
    while k < |subs|
      invariant 0 <= k <= |subs|
      invariant forall m :: 0 <= m < k ==> subs[m].name != name
    {
      if subs[k].name == name {
        return Ok(subs[k].cmd);
      }
      k := k + 1;
    }
    k := 0;
    while k < |subs|
      invariant 0 <= k <= |subs|
      invariant forall m :: 0 <= m < k ==> name !in ToArray(subs[m].cmd.alias)
    {
      var aliases := ToArray(subs[k].cmd.alias);
      var a := 0;
      while a < |aliases|
        invariant 0 <= a <= |aliases|
        invariant forall b :: 0 <= b < a ==> aliases[b] != name
      {
        if aliases[a] == name {
          return Ok(subs[k].cmd);
        }
        a := a + 1;
      }
      k := k + 1;
    }
    return Err(Fail("Unknown command `" + name + "`", "E_UNKNOWN_COMMAND"));
  }
}
