/** Data frames as values and as mutable objects: the pandas operations the
    script performs, each stated on a table of cells. */
module Frames {
  import opened Outcomes
  import opened Strings

  /** One cell. `Missing` is pandas' NaN (and NaT); `Stamp` is an opaque
      point in time produced by `pd.to_datetime`. */
  datatype Cell = Text(s: string) | Num(n: int) | Stamp(instant: int) | Missing

  type Row = seq<Cell>

  /** A data frame: its column labels and its rows, in index order.
      The index is the default range index, so a row's label is its position. */
  datatype Table = Table(columns: seq<string>, rows: seq<Row>) {
    /** Every row has one cell per column. */
    predicate Valid() { Width(rows, |columns|) }
  }

  /** Every row has `n` cells. */
  predicate Width(rows: seq<Row>, n: nat)
  {
    forall k | 0 <= k < |rows| :: |rows[k]| == n
  }

  // ---------------------------------------------------------------- labels

  /** The first position of `name` among the labels. */
  function IndexOf(columns: seq<string>, name: string): (r: Option<nat>)
    ensures r.None? <==> name !in columns
    ensures r.Some? ==> r.value < |columns| && columns[r.value] == name
    ensures r.Some? ==> forall j | 0 <= j < r.value :: columns[j] != name
  {
    IndexFrom(columns, name, 0)
  }

  /** The first position at or after `i` that holds `name`. */
  function IndexFrom(columns: seq<string>, name: string, i: nat): (r: Option<nat>)
    requires i <= |columns|
    ensures r.None? <==> forall j | i <= j < |columns| :: columns[j] != name
    ensures r.Some? ==> i <= r.value < |columns| && columns[r.value] == name
    ensures r.Some? ==> forall j | i <= j < r.value :: columns[j] != name
    decreases |columns| - i
  {
    if i == |columns| then None
    else if columns[i] == name then Some(i)
    else IndexFrom(columns, name, i + 1)
  }

  /** Where each of `names` stands among the labels; a KeyError naming the
      first absent one. */
  function Positions(columns: seq<string>, names: seq<string>): (r: Result<seq<nat>>)
    ensures r.Ok? <==> forall n | n in names :: n in columns
    ensures r.Ok? ==> |r.value| == |names|
    ensures r.Ok? ==> forall j | 0 <= j < |names| :: IndexOf(columns, names[j]) == Some(r.value[j])
    ensures r.Err? ==> r.error.KeyError? && r.error.name in names && r.error.name !in columns
  {
    if names == [] then Ok([])
    else match IndexOf(columns, names[0])
      case None => Err(KeyError(names[0]))
      case Some(i) =>
        match Positions(columns, names[1..])
        case Err(e) => Err(e)
        case Ok(ps) => Ok([i] + ps)
  }

  /** The elements of `xs` at the positions `ps`, in the order of `ps`. */
  function Select<T>(xs: seq<T>, ps: seq<nat>): (r: seq<T>)
    requires forall j | 0 <= j < |ps| :: ps[j] < |xs|
    ensures |r| == |ps| && forall j | 0 <= j < |ps| :: r[j] == xs[ps[j]]
  {
    seq(|ps|, j requires 0 <= j < |ps| => xs[ps[j]])
  }

  /** The cells at position `i` of every row, top to bottom. */
  function Field(rows: seq<Row>, i: nat): (r: seq<Cell>)
    requires forall k | 0 <= k < |rows| :: i < |rows[k]|
    ensures |r| == |rows| && forall k | 0 <= k < |rows| :: r[k] == rows[k][i]
  {
    seq(|rows|, k requires 0 <= k < |rows| => rows[k][i])
  }

  /** Every row cut down to the positions `ps`. */
  function SelectRows(rows: seq<Row>, ps: seq<nat>): (r: seq<Row>)
    requires forall k, j | 0 <= k < |rows| && 0 <= j < |ps| :: ps[j] < |rows[k]|
    ensures |r| == |rows| && forall k | 0 <= k < |rows| :: r[k] == Select(rows[k], ps)
  {
    seq(|rows|, k requires 0 <= k < |rows| => Select(rows[k], ps))
  }

  /** Every row with its cell at position `i` replaced by the next of `cells`. */
  function ReplaceField(rows: seq<Row>, i: nat, cells: seq<Cell>): (r: seq<Row>)
    requires |cells| == |rows| && forall k | 0 <= k < |rows| :: i < |rows[k]|
    ensures |r| == |rows| && forall k | 0 <= k < |rows| :: r[k] == rows[k][i := cells[k]]
  {
    seq(|rows|, k requires 0 <= k < |rows| => rows[k][i := cells[k]])
  }

  /** Every row with the next of `cells` added at its end. */
  function AppendField(rows: seq<Row>, cells: seq<Cell>): (r: seq<Row>)
    requires |cells| == |rows|
    ensures |r| == |rows| && forall k | 0 <= k < |rows| :: r[k] == rows[k] + [cells[k]]
  {
    seq(|rows|, k requires 0 <= k < |rows| => rows[k] + [cells[k]])
  }

  /** `t[name]`: the cells of one column, top to bottom. */
  function Column(t: Table, name: string): (r: Result<seq<Cell>>)
    requires t.Valid()
    ensures r.Err? <==> name !in t.columns
    ensures r.Err? ==> r.error == KeyError(name)
    ensures r.Ok? ==> |r.value| == |t.rows|
    ensures r.Ok? ==> forall k | 0 <= k < |t.rows| :: r.value[k] == t.rows[k][IndexOf(t.columns, name).value]
  {
    match IndexOf(t.columns, name)
    case None => Err(KeyError(name))
    case Some(i) => Ok(Field(t.rows, i))
  }

  /** `t[names]`: a frame with exactly the columns `names`, in that order;
      a KeyError if one is absent. */
  function Project(t: Table, names: seq<string>): (r: Result<Table>)
    requires t.Valid()
    ensures r.Ok? <==> forall n | n in names :: n in t.columns
    ensures r.Err? ==> r.error.KeyError? && r.error.name in names && r.error.name !in t.columns
    ensures r.Ok? ==> r.value.Valid() && r.value.columns == names && |r.value.rows| == |t.rows|
  {
    match Positions(t.columns, names)
    case Err(e) => Err(e)
    case Ok(ps) => Ok(Table(names, SelectRows(t.rows, ps)))
  }

  /** Every projected column holds the cells it held before. */
  lemma ProjectKeepsCells(t: Table, names: seq<string>, n: string)
    requires t.Valid() && Project(t, names).Ok? && n in names
    ensures Column(Project(t, names).value, n) == Column(t, n)
  {
    var p := Project(t, names).value;
    var ps := Positions(t.columns, names).value;
    var j := IndexOf(names, n).value;
    assert IndexOf(t.columns, names[j]) == Some(ps[j]);
    assert Column(p, n).value == Column(t, n).value;
  }

  /** `rename(columns=m)`: each label that `m` maps replaced, the others kept. */
  function Renamed(columns: seq<string>, m: map<string, string>): (r: seq<string>)
    ensures |r| == |columns|
    ensures forall i | 0 <= i < |columns| :: columns[i] in m ==> r[i] == m[columns[i]]
    ensures forall i | 0 <= i < |columns| :: columns[i] !in m ==> r[i] == columns[i]
  {
    seq(|columns|, i requires 0 <= i < |columns| => if columns[i] in m then m[columns[i]] else columns[i])
  }

  /** `[x.lower() for x in columns]` */
  function LowerAll(columns: seq<string>): (r: seq<string>)
    ensures |r| == |columns| && forall i | 0 <= i < |columns| :: r[i] == Lower(columns[i])
  {
    seq(|columns|, i requires 0 <= i < |columns| => Lower(columns[i]))
  }

  /** The positions of the labels not in `names`, in increasing order. */
  function KeptPositions(columns: seq<string>, names: seq<string>): (r: seq<nat>)
    ensures forall j | 0 <= j < |r| :: r[j] < |columns| && columns[r[j]] !in names
    ensures forall i | 0 <= i < |columns| && columns[i] !in names :: i in r
    ensures forall j, j' | 0 <= j < j' < |r| :: r[j] < r[j']
  {
    KeptFromBounded(columns, names, 0);
    KeptFromComplete(columns, names, 0);
    KeptFromSorted(columns, names, 0);
    KeptFrom(columns, names, 0)
  }

  function KeptFrom(columns: seq<string>, names: seq<string>, i: nat): seq<nat>
    requires i <= |columns|
    decreases |columns| - i
  {
    if i == |columns| then []
    else (if columns[i] in names then [] else [i]) + KeptFrom(columns, names, i + 1)
  }

  lemma {:induction false} KeptFromBounded(columns: seq<string>, names: seq<string>, i: nat)
    requires i <= |columns|
    ensures forall j | 0 <= j < |KeptFrom(columns, names, i)| ::
      i <= KeptFrom(columns, names, i)[j] < |columns| && columns[KeptFrom(columns, names, i)[j]] !in names
    decreases |columns| - i
  {
    if i < |columns| {
      KeptFromBounded(columns, names, i + 1);
      var rest := KeptFrom(columns, names, i + 1);
      var head: seq<nat> := if columns[i] in names then [] else [i];
      var r := KeptFrom(columns, names, i);
      assert r == head + rest;
      forall j | 0 <= j < |r| ensures i <= r[j] < |columns| && columns[r[j]] !in names {
        if j >= |head| { assert r[j] == rest[j - |head|]; }
      }
    }
  }

  lemma {:induction false} KeptFromComplete(columns: seq<string>, names: seq<string>, i: nat)
    requires i <= |columns|
    ensures forall k | i <= k < |columns| && columns[k] !in names :: k in KeptFrom(columns, names, i)
    decreases |columns| - i
  {
    if i < |columns| {
      KeptFromComplete(columns, names, i + 1);
      assert KeptFrom(columns, names, i)
          == (if columns[i] in names then [] else [i]) + KeptFrom(columns, names, i + 1);
    }
  }

  lemma {:induction false} KeptFromSorted(columns: seq<string>, names: seq<string>, i: nat)
    requires i <= |columns|
    ensures forall j, j' | 0 <= j < j' < |KeptFrom(columns, names, i)| ::
      KeptFrom(columns, names, i)[j] < KeptFrom(columns, names, i)[j']
    decreases |columns| - i
  {
    if i < |columns| {
      KeptFromSorted(columns, names, i + 1);
      KeptFromBounded(columns, names, i + 1);
      var rest := KeptFrom(columns, names, i + 1);
      if columns[i] !in names {
        var r := KeptFrom(columns, names, i);
        assert r == [i] + rest;
        forall j, j' | 0 <= j < j' < |r| ensures r[j] < r[j'] {
          assert r[j'] == rest[j' - 1];
          if j > 0 { assert r[j] == rest[j - 1]; }
        }
      }
    }
  }

  /** `drop(columns=names)`: the columns labelled by one of `names` removed,
      the others kept in order; a KeyError, and nothing removed, if a label is absent. */
  function ColumnsDropped(t: Table, names: seq<string>): (r: Result<Table>)
    requires t.Valid()
    ensures r.Ok? <==> forall n | n in names :: n in t.columns
    ensures r.Err? ==> r.error.KeyError? && r.error.name in names && r.error.name !in t.columns
    ensures r.Ok? ==> r.value.Valid() && |r.value.rows| == |t.rows|
  {
    match Positions(t.columns, names)
    case Err(e) => Err(e)
    case Ok(_) =>
      var ps := KeptPositions(t.columns, names);
      Ok(Table(Select(t.columns, ps), SelectRows(t.rows, ps)))
  }

  /** Dropping columns keeps, in every row, the cells at the kept positions. */
  lemma ColumnsDroppedAt(t: Table, names: seq<string>, ps: seq<nat>)
    requires t.Valid() && (forall n | n in names :: n in t.columns) && KeptPositions(t.columns, names) == ps
    ensures ColumnsDropped(t, names)
         == Ok(Table(Select(t.columns, ps), SelectRows(t.rows, ps)))
  {}

  /** After the drop, a label remains exactly when it was there and was not named. */
  lemma ColumnsDroppedLabels(t: Table, names: seq<string>, c: string)
    requires t.Valid() && ColumnsDropped(t, names).Ok?
    ensures c in ColumnsDropped(t, names).value.columns <==> c in t.columns && c !in names
  {
    var ps := KeptPositions(t.columns, names);
    var d := ColumnsDropped(t, names).value;
    if c in t.columns && c !in names {
      var i :| 0 <= i < |t.columns| && t.columns[i] == c;
      var j :| 0 <= j < |ps| && ps[j] == i;
      assert d.columns[j] == c;
    }
  }

  // ------------------------------------------------------------------ rows

  /** The elements of `xs` whose flag in `keep` is set, in their original order. */
  function Where<T>(xs: seq<T>, keep: seq<bool>): (r: seq<T>)
    requires |keep| == |xs|
    ensures |r| <= |xs|
    decreases |xs|
  {
    if xs == [] then [] else (if keep[0] then [xs[0]] else []) + Where(xs[1..], keep[1..])
  }

  /** Exactly the flagged elements survive. */
  lemma {:induction false} WhereMembers<T>(xs: seq<T>, keep: seq<bool>, x: T)
    requires |keep| == |xs|
    ensures x in Where(xs, keep) <==> exists k | 0 <= k < |xs| :: keep[k] && xs[k] == x
    decreases |xs|
  {
    if xs != [] {
      WhereMembers(xs[1..], keep[1..], x);
      if exists k | 0 <= k < |xs| :: keep[k] && xs[k] == x {
        var k :| 0 <= k < |xs| && keep[k] && xs[k] == x;
        if k > 0 { assert keep[1..][k - 1] && xs[1..][k - 1] == x; }
      }
      if exists k | 0 <= k < |xs[1..]| :: keep[1..][k] && xs[1..][k] == x {
        var k :| 0 <= k < |xs[1..]| && keep[1..][k] && xs[1..][k] == x;
        assert keep[k + 1] && xs[k + 1] == x;
      }
    }
  }

  /** Filtering a concatenation filters each part: the survivors keep their relative order. */
  lemma {:induction false} WhereAppend<T>(a: seq<T>, ka: seq<bool>, b: seq<T>, kb: seq<bool>)
    requires |ka| == |a| && |kb| == |b|
    ensures Where(a + b, ka + kb) == Where(a, ka) + Where(b, kb)
    decreases |a|
  {
    if a != [] {
      assert (a + b)[1..] == a[1..] + b && (ka + kb)[1..] == ka[1..] + kb;
      WhereAppend(a[1..], ka[1..], b, kb);
    } else {
      assert a + b == b && ka + kb == kb;
    }
  }

  /** Filtering rows and then taking a field is taking the field and then filtering it. */
  lemma {:induction false} FieldWhere(rows: seq<Row>, keep: seq<bool>, n: nat, i: nat)
    requires |keep| == |rows| && Width(rows, n) && i < n
    ensures Width(Where(rows, keep), n)
    ensures Where(Field(rows, i), keep) == Field(Where(rows, keep), i)
    decreases |rows|
  {
    WhereWidth(rows, keep, n);
    if rows != [] {
      WhereWidth(rows[1..], keep[1..], n);
      assert Field(rows, i)[1..] == Field(rows[1..], i);
      FieldWhere(rows[1..], keep[1..], n, i);
      assert Field(Where(rows, keep), i)
          == (if keep[0] then [rows[0][i]] else []) + Field(Where(rows[1..], keep[1..]), i);
    }
  }

  /** Filtering rows of one width leaves rows of that width. */
  lemma {:induction false} WhereWidth(rows: seq<Row>, keep: seq<bool>, n: nat)
    requires |keep| == |rows| && Width(rows, n)
    ensures Width(Where(rows, keep), n)
    decreases |rows|
  {
    if rows != [] {
      WhereWidth(rows[1..], keep[1..], n);
    }
  }

  /** The flags negated: the rows to keep when `drop` marks the rows to drop. */
  function Negate(drop: seq<bool>): (r: seq<bool>)
    ensures |r| == |drop| && forall k | 0 <= k < |drop| :: r[k] == !drop[k]
  {
    seq(|drop|, k requires 0 <= k < |drop| => !drop[k])
  }

  /** `drop(labels)` for the rows whose flag in `drop` is set: the other rows stay, in order. */
  function RowsDropped(t: Table, drop: seq<bool>): (r: Table)
    requires t.Valid() && |drop| == |t.rows|
    ensures r.Valid() && r.columns == t.columns
  {
    WhereWidth(t.rows, Negate(drop), |t.columns|);
    Table(t.columns, Where(t.rows, Negate(drop)))
  }

  /** The rows that remain are exactly the rows not flagged. */
  lemma RowsDroppedMembers(t: Table, drop: seq<bool>, row: Row)
    requires t.Valid() && |drop| == |t.rows|
    ensures row in RowsDropped(t, drop).rows <==> exists k | 0 <= k < |t.rows| :: !drop[k] && t.rows[k] == row
  {
    WhereMembers(t.rows, Negate(drop), row);
  }

  /** `t[name] = cells`: the column replaced where it stands, or added at the right. */
  function WithColumn(t: Table, name: string, cells: seq<Cell>): (r: Table)
    requires t.Valid() && |cells| == |t.rows|
    ensures r.Valid() && |r.rows| == |t.rows|
    ensures r.columns == if name in t.columns then t.columns else t.columns + [name]
  {
    match IndexOf(t.columns, name)
    case Some(i) =>
      Table(t.columns, ReplaceField(t.rows, i, cells))
    case None =>
      Table(t.columns + [name], AppendField(t.rows, cells))
  }

  /** After `t[name] = cells` the column `name` holds `cells` and every other column is as it was. */
  lemma WithColumnCells(t: Table, name: string, cells: seq<Cell>, c: string)
    requires t.Valid() && |cells| == |t.rows|
    ensures Column(WithColumn(t, name, cells), name) == Ok(cells)
    ensures c in t.columns && c != name ==> Column(WithColumn(t, name, cells), c) == Column(t, c)
  {
    var w := WithColumn(t, name, cells);
    if name !in t.columns {
      IndexOfAppend(t.columns, name, name);
      IndexOfAppend(t.columns, name, c);
    }
    assert Column(w, name).value == cells;
    if c in t.columns && c != name {
      assert Column(w, c).value == Column(t, c).value;
    }
  }

  lemma IndexOfAppend(columns: seq<string>, extra: string, c: string)
    ensures c in columns ==> IndexOf(columns + [extra], c) == IndexOf(columns, c)
    ensures c !in columns && c == extra ==> IndexOf(columns + [extra], c) == Some(|columns|)
  {
    var w := columns + [extra];
    if c in columns {
      var i := IndexOf(columns, c).value;
      var i' := IndexOf(w, c).value;
      assert w[i] == c;
      assert i' <= i;
      assert columns[i'] == c;
    } else if c == extra {
      assert w[|columns|] == c;
    }
  }

  // ------------------------------------------------ element-wise operations

  /** `cell < bound` against a string: Python's string order on text; a missing
      value compares false; any other value raises TypeError. */
  function CellBelow(c: Cell, bound: string): (r: Result<bool>)
    ensures r.Err? <==> !(c.Text? || c.Missing?)
    ensures r.Ok? ==> (r.value <==> c.Text? && Below(c.s, bound))
  {
    match c
    case Text(s) => Ok(Below(s, bound))
    case Missing => Ok(false)
    case _ => Err(TypeError)
  }

  /** `column < bound`: one flag per cell, or TypeError if any cell cannot be compared. */
  function BelowMask(cells: seq<Cell>, bound: string): (r: Result<seq<bool>>)
    ensures r.Err? <==> exists k | 0 <= k < |cells| :: CellBelow(cells[k], bound).Err?
    ensures r.Err? ==> r.error == TypeError
    ensures r.Ok? ==> |r.value| == |cells|
    ensures r.Ok? ==> forall k | 0 <= k < |cells| :: CellBelow(cells[k], bound) == Ok(r.value[k])
  {
    if exists k | 0 <= k < |cells| :: CellBelow(cells[k], bound).Err? then Err(TypeError)
    else Ok(seq(|cells|, k requires 0 <= k < |cells| => CellBelow(cells[k], bound).value))
  }

  /** Comparing a concatenation compares each part. */
  lemma BelowMaskAppend(a: seq<Cell>, b: seq<Cell>, bound: string)
    ensures BelowMask(a + b, bound).Ok? <==> BelowMask(a, bound).Ok? && BelowMask(b, bound).Ok?
    ensures BelowMask(a + b, bound).Ok? ==> BelowMask(a + b, bound).value == BelowMask(a, bound).value + BelowMask(b, bound).value
  {
    var ab := a + b;
    if exists k | 0 <= k < |ab| :: CellBelow(ab[k], bound).Err? {
      var k :| 0 <= k < |ab| && CellBelow(ab[k], bound).Err?;
      if k < |a| { assert ab[k] == a[k]; } else { assert ab[k] == b[k - |a|]; }
    } else {
      forall k | 0 <= k < |a| ensures CellBelow(a[k], bound).Ok? { assert ab[k] == a[k]; }
      forall k | 0 <= k < |b| ensures CellBelow(b[k], bound).Ok? { assert ab[|a| + k] == b[k]; }
    }
  }

  /** `column == v`: flags the cells equal to `v` (never raises). */
  function EqualMask(cells: seq<Cell>, v: Cell): (r: seq<bool>)
    ensures |r| == |cells| && forall k | 0 <= k < |cells| :: r[k] <==> cells[k] == v
  {
    seq(|cells|, k requires 0 <= k < |cells| => cells[k] == v)
  }

  /** A cell-by-cell function applied down a column. */
  function MapCells(f: Cell -> Cell, cells: seq<Cell>): (r: seq<Cell>)
    ensures |r| == |cells| && forall k | 0 <= k < |cells| :: r[k] == f(cells[k])
  {
    seq(|cells|, k requires 0 <= k < |cells| => f(cells[k]))
  }

  /** Whether `.str` accepts an object column. pandas infers the kind of the
      non-missing cells and accepts strings (alone or mixed with other kinds),
      numbers mixed with timestamps, or no value at all. */
  predicate StrAccessible(cells: seq<Cell>)
  {
    || (exists k | 0 <= k < |cells| :: cells[k].Text?)
    || ((exists k | 0 <= k < |cells| :: cells[k].Num?) && (exists k | 0 <= k < |cells| :: cells[k].Stamp?))
    || (forall k | 0 <= k < |cells| :: cells[k].Missing?)
  }

  /** `column.str[-2:]`: the column is checked as a whole first. A column whose
      values are all numbers, or all timestamps, raises AttributeError;
      otherwise every cell is sliced on its own. */
  function SliceColumn(cells: seq<Cell>): (r: Result<seq<Cell>>)
    ensures r.Err? <==>
      && (exists k | 0 <= k < |cells| :: !cells[k].Missing?)
      && ((forall k | 0 <= k < |cells| :: cells[k].Missing? || cells[k].Num?) ||
          (forall k | 0 <= k < |cells| :: cells[k].Missing? || cells[k].Stamp?))
    ensures r.Err? ==> r.error == AttributeError
    ensures r.Ok? ==> |r.value| == |cells|
    ensures r.Ok? ==> forall k | 0 <= k < |cells| ::
      r.value[k] == if cells[k].Text? then Text(LastTwo(cells[k].s)) else Missing
  {
    if StrAccessible(cells) then Ok(MapCells(SliceLastTwo, cells)) else Err(AttributeError)
  }

  /** `.str[-2:]` on one cell of a column the accessor accepts: the slice of a
      string; NaN for anything else. */
  function SliceLastTwo(c: Cell): (r: Cell)
    ensures c.Text? ==> r == Text(LastTwo(c.s))
    ensures !c.Text? ==> r == Missing
  {
    if c.Text? then Text(LastTwo(c.s)) else Missing
  }

  /** `a + b` between two cells of object columns: a missing operand gives a
      missing result; text joins text, numbers add; other mixes raise TypeError. */
  function Plus(a: Cell, b: Cell): (r: Result<Cell>)
    ensures r.Ok? && (a.Missing? || b.Missing?) ==> r.value == Missing
    ensures a.Text? && b.Text? ==> r == Ok(Text(a.s + b.s))
    ensures a.Num? && b.Num? ==> r == Ok(Num(a.n + b.n))
    ensures r.Err? <==> !a.Missing? && !b.Missing? && !(a.Text? && b.Text?) && !(a.Num? && b.Num?)
  {
    if a.Missing? || b.Missing? then Ok(Missing)
    else if a.Text? && b.Text? then Ok(Text(a.s + b.s))
    else if a.Num? && b.Num? then Ok(Num(a.n + b.n))
    else Err(TypeError)
  }

  /** Element-wise `xs + ys`, or TypeError if any pair cannot be added. */
  function PlusColumns(xs: seq<Cell>, ys: seq<Cell>): (r: Result<seq<Cell>>)
    requires |xs| == |ys|
    ensures r.Err? <==> exists k | 0 <= k < |xs| :: Plus(xs[k], ys[k]).Err?
    ensures r.Err? ==> r.error == TypeError
    ensures r.Ok? ==> |r.value| == |xs|
    ensures r.Ok? ==> forall k | 0 <= k < |xs| :: Plus(xs[k], ys[k]) == Ok(r.value[k])
  {
    if exists k | 0 <= k < |xs| :: Plus(xs[k], ys[k]).Err? then Err(TypeError)
    else Ok(seq(|xs|, k requires 0 <= k < |xs| => Plus(xs[k], ys[k]).value))
  }

  // ------------------------------------------------- row-wise operations split

  /** Projecting rows works row by row. */
  lemma SelectRowsAppend(a: seq<Row>, b: seq<Row>, n: nat, ps: seq<nat>)
    requires Width(a, n) && Width(b, n) && forall j | 0 <= j < |ps| :: ps[j] < n
    ensures Width(a + b, n)
    ensures SelectRows(a + b, ps) == SelectRows(a, ps) + SelectRows(b, ps)
  {
    assert forall k | 0 <= k < |b| :: (a + b)[|a| + k] == b[k];
  }

  /** Taking a field works row by row. */
  lemma FieldAppend(a: seq<Row>, b: seq<Row>, n: nat, i: nat)
    requires Width(a, n) && Width(b, n) && i < n
    ensures Width(a + b, n)
    ensures Field(a + b, i) == Field(a, i) + Field(b, i)
  {
    assert forall k | 0 <= k < |b| :: (a + b)[|a| + k] == b[k];
  }

  /** Negating flags works flag by flag. */
  lemma NegateAppend(x: seq<bool>, y: seq<bool>)
    ensures Negate(x + y) == Negate(x) + Negate(y)
  {
    assert forall k | 0 <= k < |y| :: (x + y)[|x| + k] == y[k];
  }

  /** Comparing cells with a value works cell by cell. */
  lemma EqualMaskAppend(a: seq<Cell>, b: seq<Cell>, v: Cell)
    ensures EqualMask(a + b, v) == EqualMask(a, v) + EqualMask(b, v)
  {
    assert forall k | 0 <= k < |b| :: (a + b)[|a| + k] == b[k];
  }

  // ------------------------------------------------------- the mutable frame

  /** A pandas DataFrame that the script changes in place. */
  class Frame {
    var columns: seq<string>
    var rows: seq<Row>

    function Value(): Table
      reads this
    {
      Table(columns, rows)
    }

    ghost predicate Valid()
      reads this
    {
      Value().Valid()
    }

    constructor (t: Table)
      requires t.Valid()
      ensures Valid() && Value() == t
    {
      columns, rows := t.columns, t.rows;
    }

    /** `frame.copy()`: an independent frame with the same contents. */
    method Copy() returns (f: Frame)
      requires Valid()
      ensures fresh(f) && f.Valid() && f.Value() == Value()
    {
      f := new Frame(Value());
    }

    /** `rename(columns=m)`, in place. */
    method Rename(m: map<string, string>)
      requires Valid()
      modifies this
      ensures Valid() && columns == Renamed(old(columns), m) && rows == old(rows)
    {
      columns := Renamed(columns, m);
    }

    /** `frame.columns = labels`: ValueError, and no change, when the length differs. */
    method SetColumns(labels: seq<string>) returns (err: Option<Error>)
      requires Valid()
      modifies this
      ensures Valid() && rows == old(rows)
      ensures err.None? <==> |labels| == |old(columns)|
      ensures err.None? ==> columns == labels
      ensures err.Some? ==> err.value == ValueError && columns == old(columns)
    {
      if |labels| == |columns| {
        columns := labels;
        err := None;
      } else {
        err := Some(ValueError);
      }
    }

    /** `drop(labels, inplace=True)` for the rows flagged in `drop`. */
    method DropRows(drop: seq<bool>)
      requires Valid() && |drop| == |rows|
      modifies this
      ensures Valid() && Value() == RowsDropped(old(Value()), drop)
    {
      rows := RowsDropped(Value(), drop).rows;
    }

    /** `drop(columns=names, inplace=True)`: KeyError, and no change, when a label is absent. */
    method DropColumns(names: seq<string>) returns (err: Option<Error>)
      requires Valid()
      modifies this
      ensures Valid()
      ensures var d := ColumnsDropped(old(Value()), names);
        if d.Ok? then err == None && Value() == d.value else err == Some(d.error) && Value() == old(Value())
    {
      var d := ColumnsDropped(Value(), names);
      if d.Ok? {
        columns, rows := d.value.columns, d.value.rows;
        err := None;
      } else {
        err := Some(d.error);
      }
    }

    /** `frame[name] = cells`. */
    method Assign(name: string, cells: seq<Cell>)
      requires Valid() && |cells| == |rows|
      modifies this
      ensures Valid() && Value() == WithColumn(old(Value()), name, cells)
    {
      var w := WithColumn(Value(), name, cells);
      columns, rows := w.columns, w.rows;
    }
  }
}
