/**
 * `formatColumns` from the blog deployment script: a list of strings laid
 * out in equal-width columns, filled row by row. Column `c` takes every
 * `columns`-th item from item `c` on, the shorter columns get one empty
 * string, every cell is left-justified to the widest entry of its column,
 * and the cells of a row are joined by the separator.
 *
 * The generator is modelled by the list of the lines it yields; the
 * `ValueError` raised by `max()` when there are no columns is an error
 * result.
 */
module Columns {
  import opened Wrappers

  /** `max()` of an empty sequence: `columns` was zero or negative. */
  datatype ColumnsError = NoColumns

  // ---------------------------------------------------------------------
  // Columns

  /** The slice `items[c::step]`. */
  function Stride(items: seq<string>, c: nat, step: nat): seq<string>
    requires step >= 1
    decreases |items| - c
  {
    if c >= |items| then [] else [items[c]] + Stride(items, c + step, step)
  }

  lemma Shift(c: nat, i: nat, step: nat)
    requires i >= 1
    ensures c + step + (i - 1) * step == c + i * step
  {
  }

  /** The `i`-th entry of the slice is item `c + i * step`. */
  lemma {:induction false} StrideAt(items: seq<string>, c: nat, step: nat, i: nat)
    requires step >= 1 && i < |Stride(items, c, step)|
    ensures c + i * step < |items| && Stride(items, c, step)[i] == items[c + i * step]
    decreases |items| - c
  {
    if i > 0 {
      StrideAt(items, c + step, step, i - 1);
      Shift(c, i, step);
    }
  }

  /** The slice holds exactly the positions `c + i * step` inside the list. */
  lemma {:induction false} StrideLength(items: seq<string>, c: nat, step: nat, i: nat)
    requires step >= 1
    ensures i < |Stride(items, c, step)| <==> c + i * step < |items|
    decreases |items| - c
  {
    if c < |items| && i > 0 {
      StrideLength(items, c + step, step, i - 1);
      Shift(c, i, step);
    } else if c >= |items| {
      Product(i, step);
    }
  }

  lemma Product(i: nat, step: nat)
    ensures i * step >= 0
  {
  }

  /** One sublist per column. */
  function Sublists(items: seq<string>, columns: nat): seq<seq<string>>
    requires columns >= 1
  {
    seq(columns, c requires 0 <= c < columns => Stride(items, c, columns))
  }

  /** `ceil(n / columns)`: the rows needed for `n` items. */
  function Rows(n: nat, columns: nat): nat
    requires columns >= 1
  {
    (n + columns - 1) / columns
  }

  /** `Rows` rows are enough for `n` items, and one fewer is not. */
  lemma RowsBounds(n: nat, columns: nat)
    requires columns >= 1
    ensures (Rows(n, columns) - 1) * columns < n <= Rows(n, columns) * columns
  {
    var r := Rows(n, columns);
    var rem := (n + columns - 1) % columns;
    assert n + columns - 1 == r * columns + rem;
    assert (r - 1) * columns == r * columns - columns;
  }

  /** Every column is `Rows` or `Rows - 1` long, and the first one is `Rows` long. */
  lemma ColumnLength(items: seq<string>, columns: nat, c: nat)
    requires columns >= 1 && |items| >= 1 && c < columns
    ensures var n, r := |Stride(items, c, columns)|, Rows(|items|, columns);
      r - 1 <= n <= r && (c == 0 ==> n == r)
  {
    var r := Rows(|items|, columns);
    RowsBounds(|items|, columns);
    StrideLength(items, c, columns, r);
    assert r * columns <= c + r * columns;
    if r >= 2 {
      StrideLength(items, c, columns, r - 2);
      assert (r - 2) * columns + columns == (r - 1) * columns;
    }
    if c == 0 {
      StrideLength(items, c, columns, r - 1);
    }
  }

  // ---------------------------------------------------------------------
  // Longest and shortest

  function Max(a: nat, b: nat): nat { if a < b then b else a }
  function Min(a: nat, b: nat): nat { if a < b then a else b }

  /** `max(map(len, xs))`, with 0 for no elements. */
  function Longest<T>(xs: seq<seq<T>>): (m: nat)
    ensures forall i :: 0 <= i < |xs| ==> |xs[i]| <= m
    ensures |xs| > 0 ==> exists i :: 0 <= i < |xs| && |xs[i]| == m
  {
    if |xs| == 0 then 0
    else
      var m := Longest(xs[..|xs| - 1]);
      assert forall i :: 0 <= i < |xs| - 1 ==> xs[..|xs| - 1][i] == xs[i];
      Max(m, |xs[|xs| - 1]|)
  }

  /** The length of the shortest element: how far `zip` runs. */
  function Shortest<T>(xs: seq<seq<T>>): (m: nat)
    requires |xs| > 0
    ensures forall i :: 0 <= i < |xs| ==> m <= |xs[i]|
    ensures exists i :: 0 <= i < |xs| && |xs[i]| == m
  {
    if |xs| == 1 then |xs[0]|
    else
      var m := Shortest(xs[..|xs| - 1]);
      assert forall i :: 0 <= i < |xs| - 1 ==> xs[..|xs| - 1][i] == xs[i];
      Min(m, |xs[|xs| - 1]|)
  }

  /** The loop behind `max(mymap(len, xs))`. */
  method LongestOf<T>(xs: seq<seq<T>>) returns (m: nat)
    ensures m == Longest(xs)
  {
    m := 0;
    for i := 0 to |xs|
      invariant m == Longest(xs[..i])
    {
      assert xs[..i + 1][..i] == xs[..i];
      if |xs[i]| > m {
        m := |xs[i]|;
      }
    }
    assert xs[..|xs|] == xs;
  }

  // ---------------------------------------------------------------------
  // Padding

  /** Each column shorter than `m` gets one empty string. */
  function Pad(subs: seq<seq<string>>, m: nat): seq<seq<string>>
  {
    seq(|subs|, i requires 0 <= i < |subs| => if |subs[i]| < m then subs[i] + [""] else subs[i])
  }

  /** The columns as the script leaves them before formatting. */
  function Padded(items: seq<string>, columns: nat): seq<seq<string>>
    requires columns >= 1
  {
    var subs := Sublists(items, columns);
    Pad(subs, Longest(subs))
  }

  /** The longest column is the first, `Rows` long. */
  lemma LongestColumn(items: seq<string>, columns: nat)
    requires columns >= 1 && |items| >= 1
    ensures Longest(Sublists(items, columns)) == Rows(|items|, columns)
  {
    var subs := Sublists(items, columns);
    var m := Longest(subs);
    ColumnLength(items, columns, 0);
    assert subs[0] == Stride(items, 0, columns);
    var i :| 0 <= i < |subs| && |subs[i]| == m;
    assert subs[i] == Stride(items, i, columns);
    ColumnLength(items, columns, i);
  }

  /** Since column lengths differ by at most one, a single padding string evens them all out. */
  lemma PaddedEven(items: seq<string>, columns: nat)
    requires columns >= 1 && |items| >= 1
    ensures var p := Padded(items, columns);
      |p| == columns && (forall c :: 0 <= c < columns ==> |p[c]| == Rows(|items|, columns)) &&
      Shortest(p) == Rows(|items|, columns)
  {
    LongestColumn(items, columns);
    var p := Padded(items, columns);
    forall c | 0 <= c < columns
      ensures |p[c]| == Rows(|items|, columns)
    {
      ColumnLength(items, columns, c);
    }
    var i :| 0 <= i < |p| && |p[i]| == Shortest(p);
  }

  /**
   * The cell in row `row` of column `c` is item `c + row * columns`, or
   * the padding string past the end of the list.
   */
  lemma CellEntry(items: seq<string>, columns: nat, row: nat, c: nat)
    requires columns >= 1 && |items| >= 1 && c < columns && row < Rows(|items|, columns)
    ensures var p := Padded(items, columns);
      |p| == columns && row < |p[c]| &&
      p[c][row] == if c + row * columns < |items| then items[c + row * columns] else ""
  {
    var subs := Sublists(items, columns);
    var p := Padded(items, columns);
    PaddedEven(items, columns);
    LongestColumn(items, columns);
    assert subs[c] == Stride(items, c, columns);
    ColumnLength(items, columns, c);
    StrideLength(items, c, columns, row);
    if row < |subs[c]| {
      StrideAt(items, c, columns, row);
      assert p[c][row] == subs[c][row];
    } else {
      assert p[c] == subs[c] + [""];
    }
  }

  /** Item `k` lands in row `k / columns` of column `k % columns`. */
  lemma ItemPlaced(items: seq<string>, columns: nat, k: nat)
    requires columns >= 1 && k < |items|
    ensures var p := Padded(items, columns);
      |p| == columns && k / columns < |p[k % columns]| && p[k % columns][k / columns] == items[k]
  {
    var row, c := k / columns, k % columns;
    Split(k, columns);
    RowsBounds(|items|, columns);
    RowBelow(row, Rows(|items|, columns), columns, c, |items|);
    CellEntry(items, columns, row, c);
  }

  lemma Split(k: nat, columns: nat)
    requires columns >= 1
    ensures k % columns + (k / columns) * columns == k && k % columns < columns
  {
  }

  /** `c + row * columns < n <= rows * columns` puts `row` below `rows`. */
  lemma RowBelow(row: nat, rows: nat, columns: nat, c: nat, n: nat)
    requires c + row * columns < n <= rows * columns
    ensures row < rows
  {
  }

  // ---------------------------------------------------------------------
  // Formatting

  /** `"%-ws" % s`: `s` followed by spaces up to width `w`, never cut. */
  function LeftJustify(s: string, w: nat): (r: string)
    ensures |r| == Max(|s|, w)
    ensures r[..|s|] == s
    ensures forall i :: |s| <= i < |r| ==> r[i] == ' '
  {
    if |s| >= w then s else s + seq(w - |s|, _ => ' ')
  }

  /** `sep.join(xs)`. */
  function Join(sep: string, xs: seq<string>): string
  {
    if |xs| == 0 then ""
    else if |xs| == 1 then xs[0]
    else Join(sep, xs[..|xs| - 1]) + sep + xs[|xs| - 1]
  }

  /** Each column's width: its widest entry. */
  function Widths(padded: seq<seq<string>>): (w: seq<nat>)
    ensures |w| == |padded|
  {
    seq(|padded|, c requires 0 <= c < |padded| => Longest(padded[c]))
  }

  /** The cells of one output line. */
  function Cells(padded: seq<seq<string>>, widths: seq<nat>, row: nat): (r: seq<string>)
    requires |widths| == |padded| && forall c :: 0 <= c < |padded| ==> row < |padded[c]|
    ensures |r| == |padded|
  {
    seq(|padded|, c requires 0 <= c < |padded| => LeftJustify(padded[c][row], widths[c]))
  }

  /** The lines `formatColumns` yields, or the error it raises. */
  function Layout(items: seq<string>, columns: int, separator: string): Result<seq<string>, ColumnsError>
  {
    if |items| == 0 then Ok([])
    else if columns <= 0 then Err(NoColumns)
    else
      var p := Padded(items, columns);
      var widths := Widths(p);
      var rows := Shortest(p);
      Ok(seq(rows, row requires 0 <= row < rows => Join(separator, Cells(p, widths, row))))
  }

  // ---------------------------------------------------------------------
  // Properties of the layout

  /**
   * No items give no lines; otherwise the layout fails exactly when there
   * are no columns, and has `ceil(n / columns)` lines.
   */
  lemma LayoutLines(items: seq<string>, columns: int, separator: string)
    ensures |items| == 0 ==> Layout(items, columns, separator) == Ok([])
    ensures |items| > 0 ==> (Layout(items, columns, separator).Err? <==> columns <= 0)
    ensures |items| > 0 && columns >= 1 ==>
      Layout(items, columns, separator).Ok? && |Layout(items, columns, separator).value| == Rows(|items|, columns)
  {
    if |items| > 0 && columns >= 1 {
      PaddedEven(items, columns);
    }
  }

  function Sum(xs: seq<nat>): nat
  {
    if |xs| == 0 then 0 else Sum(xs[..|xs| - 1]) + xs[|xs| - 1]
  }

  /** A joined line is as long as its parts and the separators between them. */
  lemma {:induction false} JoinLength(sep: string, xs: seq<string>, ws: seq<nat>)
    requires |xs| == |ws| >= 1 && forall i :: 0 <= i < |xs| ==> |xs[i]| == ws[i]
    ensures |Join(sep, xs)| == Sum(ws) + (|xs| - 1) * |sep|
  {
    if |xs| > 1 {
      JoinLength(sep, xs[..|xs| - 1], ws[..|ws| - 1]);
    } else {
      assert ws[..0] == [];
    }
  }

  /** Every cell is exactly as wide as its column. */
  lemma CellsWidth(padded: seq<seq<string>>, row: nat)
    requires forall c :: 0 <= c < |padded| ==> row < |padded[c]|
    ensures var widths := Widths(padded); var cells := Cells(padded, widths, row);
      forall c :: 0 <= c < |padded| ==> |cells[c]| == widths[c] && cells[c][..|padded[c][row]|] == padded[c][row]
  {
  }

  /**
   * The columns are of equal width: every line has the same length, the
   * sum of the column widths and the separators between them.
   */
  lemma LineLength(items: seq<string>, columns: nat, separator: string, row: nat)
    requires |items| >= 1 && columns >= 1 && row < Rows(|items|, columns)
    ensures var r := Layout(items, columns, separator);
      r.Ok? && row < |r.value| && |r.value[row]| == Sum(Widths(Padded(items, columns))) + (columns - 1) * |separator|
  {
    LayoutRow(items, columns, separator, row);
    JoinCellsLength(Padded(items, columns), columns, separator, row);
  }

  /** A line joined from padded cells is as long as the widths and the separators. */
  lemma JoinCellsLength(p: seq<seq<string>>, columns: nat, separator: string, row: nat)
    requires |p| == columns >= 1 && forall c :: 0 <= c < |p| ==> row < |p[c]|
    ensures |Join(separator, Cells(p, Widths(p), row))| == Sum(Widths(p)) + (columns - 1) * |separator|
  {
    CellsWidth(p, row);
    JoinLength(separator, Cells(p, Widths(p), row), Widths(p));
  }

  /** Line `row` of the layout joins that row's cells. */
  lemma LayoutRow(items: seq<string>, columns: nat, separator: string, row: nat)
    requires |items| >= 1 && columns >= 1 && row < Rows(|items|, columns)
    ensures var p := Padded(items, columns);
      (forall c :: 0 <= c < |p| ==> row < |p[c]|) && |p| == columns &&
      var r := Layout(items, columns, separator);
      r.Ok? && row < |r.value| && r.value[row] == Join(separator, Cells(p, Widths(p), row))
  {
    PaddedEven(items, columns);
  }

  /** Lines built row by row from the padded columns and their widths are the layout. */
  lemma LayoutOf(items: seq<string>, columns: nat, separator: string, widths: seq<nat>, lines: seq<string>)
    requires |items| >= 1 && columns >= 1
    requires widths == Widths(Padded(items, columns)) && |lines| == Shortest(Padded(items, columns))
    requires forall j :: 0 <= j < |lines| ==> lines[j] == Join(separator, Cells(Padded(items, columns), widths, j))
    ensures Layout(items, columns, separator) == Ok(lines)
  {
    var r := Layout(items, columns, separator);
    assert r.Ok?;
    var v := r.value;
    assert |v| == |lines|;
    assert forall j :: 0 <= j < |v| ==> v[j] == lines[j];
    assert v == lines;
  }

  // ---------------------------------------------------------------------
  // The generator

  /** The line `format_str % line_items` for one row. */
  method FormatLine(padded: seq<seq<string>>, widths: seq<nat>, row: nat, separator: string) returns (line: string)
    requires |widths| == |padded| && forall c :: 0 <= c < |padded| ==> row < |padded[c]|
    ensures line == Join(separator, Cells(padded, widths, row))
  {
    ghost var cells := Cells(padded, widths, row);
    line := "";
    for c := 0 to |padded|
      invariant line == Join(separator, cells[..c])
    {
      assert cells[..c + 1][..c] == cells[..c];
      var cell := LeftJustify(padded[c][row], widths[c]);
      if c == 0 {
        line := cell;
      } else {
        line := line + separator + cell;
      }
    }
    assert cells[..|padded|] == cells;
  }

  /** The loop that fills one sublist per column, `string_list[column::columns]`. */
  method MakeSublists(items: seq<string>, columns: int) returns (sublists: seq<seq<string>>)
    ensures columns <= 0 ==> sublists == []
    ensures columns >= 1 ==> sublists == Sublists(items, columns)
  {
    sublists := [];
    var c := 0;
    while c < columns
      invariant 0 <= c && (c == 0 || c <= columns)
      invariant |sublists| == c
      invariant forall i :: 0 <= i < c ==> sublists[i] == Stride(items, i, columns)
    {
      sublists := sublists + [Stride(items, c, columns)];
      c := c + 1;
    }
  }

  /** The loop that appends the empty string to each column shorter than `longest`. */
  method PadColumns(sublists: seq<seq<string>>, longest: nat) returns (padded: seq<seq<string>>)
    ensures padded == Pad(sublists, longest)
  {
    padded := sublists;
    for k := 0 to |padded|
      invariant |padded| == |sublists|
      invariant forall i :: 0 <= i < k ==> padded[i] == Pad(sublists, longest)[i]
      invariant forall i :: k <= i < |sublists| ==> padded[i] == sublists[i]
    {
      if |padded[k]| < longest {
        padded := padded[k := padded[k] + [""]];
      }
    }
  }

  /** The widths the format string is built from, one per column. */
  method ColumnWidths(padded: seq<seq<string>>) returns (widths: seq<nat>)
    ensures widths == Widths(padded)
  {
    widths := [];
    for k := 0 to |padded|
      invariant |widths| == k
      invariant forall i :: 0 <= i < k ==> widths[i] == Longest(padded[i])
    {
      var w := LongestOf(padded[k]);
      widths := widths + [w];
    }
  }

  /** The `zip` loop: one line per row, until the shortest column runs out. */
  method EmitLines(padded: seq<seq<string>>, widths: seq<nat>, separator: string) returns (lines: seq<string>)
    requires |padded| > 0 && |widths| == |padded|
    ensures |lines| == Shortest(padded)
    ensures forall j :: 0 <= j < |lines| ==> lines[j] == Join(separator, Cells(padded, widths, j))
  {
    lines := [];
    var row := 0;
    while forall i :: 0 <= i < |padded| ==> row < |padded[i]|
      invariant row <= Shortest(padded) && |lines| == row
      invariant forall j :: 0 <= j < row ==> lines[j] == Join(separator, Cells(padded, widths, j))
      decreases |padded[0]| - row
    {
      var line := FormatLine(padded, widths, row, separator);
      lines := lines + [line];
      row := row + 1;
    }
  }

  /** `formatColumns`, run to the end of the generator. */
  method FormatColumns(items: seq<string>, columns: int, separator: string) returns (r: Result<seq<string>, ColumnsError>)
    ensures r == Layout(items, columns, separator)
  {
    if |items| == 0 {
      return Ok([]);
    }
    var sublists := MakeSublists(items, columns);
    if |sublists| == 0 {
      return Err(NoColumns);
    }
    var longest := LongestOf(sublists);
    var padded := PadColumns(sublists, longest);
    var widths := ColumnWidths(padded);
    var lines := EmitLines(padded, widths, separator);
    assert padded == Padded(items, columns);
    LayoutOf(items, columns, separator, widths, lines);
    r := Ok(lines);
  }
}
