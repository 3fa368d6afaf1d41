/** The pandas reductions behind the two answers: `astype(int)`, `sum`,
    `unique`, `groupby(...).count()` and `sort_values(...).head(n)`. */
module Aggregates {
  import opened Outcomes
  import opened Strings
  import opened Frames

  // ------------------------------------------------------ integers and sums

  /** `astype(int)` on one cell: numbers stay, text is read as by `int()`,
      NaN raises ValueError, a timestamp raises TypeError. */
  function CellToInt(c: Cell): (r: Result<int>)
    ensures c.Num? ==> r == Ok(c.n)
    ensures c.Text? ==> (r.Ok? <==> ParseInt(c.s).Some?)
    ensures c.Text? && r.Ok? ==> Some(r.value) == ParseInt(c.s)
    ensures c.Missing? ==> r == Err(ValueError)
    ensures c.Stamp? ==> r == Err(TypeError)
    ensures c.Text? && r.Err? ==> r.error == ValueError
  {
    match c
    case Num(n) => Ok(n)
    case Text(s) => (match ParseInt(s) case Some(n) => Ok(n) case None => Err(ValueError))
    case Missing => Err(ValueError)
    case Stamp(_) => Err(TypeError)
  }

  /** `astype(int)` on a column: every cell converted, or the first failure. */
  function AsInt(cells: seq<Cell>): (r: Result<seq<int>>)
    ensures r.Ok? ==> |r.value| == |cells|
    ensures r.Err? ==> exists k | 0 <= k < |cells| ::
      CellToInt(cells[k]) == Err(r.error) && forall j | 0 <= j < k :: CellToInt(cells[j]).Ok?
  {
    if cells == [] then Ok([])
    else match CellToInt(cells[0])
      case Err(e) => Err(e)
      case Ok(n) =>
        match AsInt(cells[1..])
        case Err(e) =>
          var k :| 0 <= k < |cells[1..]| && CellToInt(cells[1..][k]) == Err(e)
            && forall j | 0 <= j < k :: CellToInt(cells[1..][j]).Ok?;
          assert cells[k + 1] == cells[1..][k];
          assert forall j | 1 <= j < k + 1 :: cells[j] == cells[1..][j - 1];
          Err(e)
        case Ok(ns) => Ok([n] + ns)
  }

  /** The conversion succeeds exactly when every cell converts, and then holds each cell's value. */
  lemma {:induction false} AsIntCells(cells: seq<Cell>)
    ensures AsInt(cells).Ok? <==> forall k | 0 <= k < |cells| :: CellToInt(cells[k]).Ok?
    ensures AsInt(cells).Ok? ==> forall k | 0 <= k < |cells| :: CellToInt(cells[k]) == Ok(AsInt(cells).value[k])
  {
    if cells != [] {
      AsIntCells(cells[1..]);
      forall k | 0 < k < |cells| ensures cells[k] == cells[1..][k - 1] {}
    }
  }

  /** Converting a concatenation converts each part. */
  lemma {:induction false} AsIntAppend(a: seq<Cell>, b: seq<Cell>)
    ensures AsInt(a + b).Ok? <==> AsInt(a).Ok? && AsInt(b).Ok?
    ensures AsInt(a + b).Ok? ==> AsInt(a + b).value == AsInt(a).value + AsInt(b).value
    decreases |a|
  {
    if a == [] {
      assert a + b == b;
    } else {
      assert (a + b)[1..] == a[1..] + b;
      assert (a + b)[0] == a[0];
      AsIntAppend(a[1..], b);
      if AsInt(a + b).Ok? {
        assert AsInt(a + b).value == [AsInt(a).value[0]] + AsInt(a[1..] + b).value;
      }
    }
  }

  /** `sum()` of an integer column. */
  function Sum(xs: seq<int>): int
  {
    if xs == [] then 0 else Sum(xs[..|xs| - 1]) + xs[|xs| - 1]
  }

  /** The sum of a concatenation is the sum of the sums. */
  lemma {:induction false} SumAppend(a: seq<int>, b: seq<int>)
    ensures Sum(a + b) == Sum(a) + Sum(b)
    decreases |b|
  {
    if b == [] {
      assert a + b == a;
    } else {
      assert (a + b)[..|a + b| - 1] == a + b[..|b| - 1];
      SumAppend(a, b[..|b| - 1]);
    }
  }

  // ------------------------------------------------------- distinct values

  /** The set of values in a column, as `unique()` lists them (NaN once). */
  function Distinct(cells: seq<Cell>): (r: set<Cell>)
    ensures forall c :: c in r <==> c in cells
    ensures |r| <= |cells|
  {
    if cells == [] then {}
    else {cells[|cells| - 1]} + Distinct(cells[..|cells| - 1])
  }

  /** `len(column.unique())`: at most the number of rows, and at least one if there is a row. */
  function UniqueCount(cells: seq<Cell>): (n: nat)
    ensures n <= |cells|
    ensures |cells| > 0 ==> n >= 1
  {
    var d := Distinct(cells);
    assert |cells| > 0 ==> cells[0] in d;
    |d|
  }

  predicate NoRepeats(cells: seq<Cell>)
  {
    forall i, j | 0 <= i < j < |cells| :: cells[i] != cells[j]
  }

  /** The count equals the number of rows exactly when no value repeats. */
  lemma UniqueCountAllDistinct(cells: seq<Cell>)
    ensures UniqueCount(cells) == |cells| <==> NoRepeats(cells)
  {
    if NoRepeats(cells) { DistinctOfNoRepeats(cells); } else { DistinctOfRepeats(cells); }
  }

  lemma {:induction false} DistinctOfNoRepeats(cells: seq<Cell>)
    requires NoRepeats(cells)
    ensures |Distinct(cells)| == |cells|
    decreases |cells|
  {
    if cells != [] {
      var init := cells[..|cells| - 1];
      assert NoRepeats(init) by {
        forall i, j | 0 <= i < j < |init| ensures init[i] != init[j] { assert cells[i] != cells[j]; }
      }
      DistinctOfNoRepeats(init);
      assert cells[|cells| - 1] !in init by {
        forall i | 0 <= i < |init| ensures init[i] != cells[|cells| - 1] { assert cells[i] != cells[|cells| - 1]; }
      }
    }
  }

  lemma {:induction false} DistinctOfRepeats(cells: seq<Cell>)
    requires !NoRepeats(cells)
    ensures |Distinct(cells)| < |cells|
    decreases |cells|
  {
    var init := cells[..|cells| - 1];
    var last := cells[|cells| - 1];
    if last in init {
      assert Distinct(cells) == Distinct(init);
    } else {
      var i, j :| 0 <= i < j < |cells| && cells[i] == cells[j];
      assert j < |cells| - 1;
      assert init[i] == init[j];
      DistinctOfRepeats(init);
    }
  }

  // ---------------------------------------------------------- group counts

  /** One line of `groupby(key)[value].count()`: a key and how many of its rows have a value. */
  datatype Tally = Tally(species: Cell, count: nat)

  /** The distinct non-missing keys of a column (groupby leaves NaN keys out). */
  function Keys(names: seq<Cell>): (r: seq<Cell>)
    ensures forall c :: c in r <==> c in names && c != Missing
    ensures forall i, j | 0 <= i < j < |r| :: r[i] != r[j]
  {
    if names == [] then []
    else
      var init := Keys(names[..|names| - 1]);
      var last := names[|names| - 1];
      if last == Missing || last in init then init else init + [last]
  }

  /** The number of rows whose key is `key` and whose value is not missing. */
  function Reported(names: seq<Cell>, times: seq<Cell>, key: Cell): nat
    requires |names| == |times|
  {
    if names == [] then 0
    else Reported(names[..|names| - 1], times[..|times| - 1], key)
         + (if names[|names| - 1] == key && times[|times| - 1] != Missing then 1 else 0)
  }

  /** The number of rows that have both a key and a value. */
  function Paired(names: seq<Cell>, times: seq<Cell>): (n: nat)
    requires |names| == |times|
    ensures n <= |names|
  {
    if names == [] then 0
    else Paired(names[..|names| - 1], times[..|times| - 1])
         + (if names[|names| - 1] != Missing && times[|times| - 1] != Missing then 1 else 0)
  }

  /** One tally per key, in the order of `keys`. */
  function Tallied(keys: seq<Cell>, names: seq<Cell>, times: seq<Cell>): (r: seq<Tally>)
    requires |names| == |times|
    ensures |r| == |keys|
    ensures forall i | 0 <= i < |keys| :: r[i] == Tally(keys[i], Reported(names, times, keys[i]))
  {
    if keys == [] then []
    else
      var last := keys[|keys| - 1];
      Tallied(keys[..|keys| - 1], names, times) + [Tally(last, Reported(names, times, last))]
  }

  /** `groupby(names)[times].count()`: for every distinct non-missing key, the
      number of its rows whose value is not missing. */
  function GroupCount(names: seq<Cell>, times: seq<Cell>): (r: seq<Tally>)
    requires |names| == |times|
    ensures forall i, j | 0 <= i < j < |r| :: r[i].species != r[j].species
    ensures forall i | 0 <= i < |r| :: r[i].species in names && r[i].species != Missing
    ensures forall c | c in names && c != Missing :: exists i | 0 <= i < |r| :: r[i].species == c
    ensures forall i | 0 <= i < |r| :: r[i].count == Reported(names, times, r[i].species)
  {
    var keys := Keys(names);
    var r := Tallied(keys, names, times);
    assert forall c | c in names && c != Missing :: exists i | 0 <= i < |r| :: r[i].species == c by {
      forall c | c in names && c != Missing ensures exists i | 0 <= i < |r| :: r[i].species == c {
        var i :| 0 <= i < |keys| && keys[i] == c;
        assert r[i].species == c;
      }
    }
    r
  }

  /** The counts of a list of tallies, added up. */
  function TotalCount(ts: seq<Tally>): nat
  {
    if ts == [] then 0 else TotalCount(ts[..|ts| - 1]) + ts[|ts| - 1].count
  }

  lemma {:induction false} ReportedAbsent(names: seq<Cell>, times: seq<Cell>, key: Cell)
    requires |names| == |times| && key !in names
    ensures Reported(names, times, key) == 0
    decreases |names|
  {
    if names != [] {
      ReportedAbsent(names[..|names| - 1], times[..|times| - 1], key);
    }
  }

  /** Adding a row adds one to the total of the distinct keys only when its key is among them and its value is present. */
  lemma {:induction false} TalliedExtend(keys: seq<Cell>, names: seq<Cell>, times: seq<Cell>, x: Cell, y: Cell)
    requires |names| == |times|
    requires forall i, j | 0 <= i < j < |keys| :: keys[i] != keys[j]
    ensures TotalCount(Tallied(keys, names + [x], times + [y]))
         == TotalCount(Tallied(keys, names, times)) + (if x in keys && y != Missing then 1 else 0)
    decreases |keys|
  {
    if keys != [] {
      var init := keys[..|keys| - 1];
      var last := keys[|keys| - 1];
      TalliedExtend(init, names, times, x, y);
      var n', t' := names + [x], times + [y];
      assert n'[..|n'| - 1] == names && t'[..|t'| - 1] == times;
      assert Reported(n', t', last) == Reported(names, times, last) + (if x == last && y != Missing then 1 else 0);
      assert x in keys <==> x in init || x == last;
      assert x == last ==> x !in init;
    }
  }

  lemma TalliedSnoc(keys: seq<Cell>, c: Cell, names: seq<Cell>, times: seq<Cell>)
    requires |names| == |times|
    ensures TotalCount(Tallied(keys + [c], names, times))
         == TotalCount(Tallied(keys, names, times)) + Reported(names, times, c)
  {
    assert (keys + [c])[..|keys|] == keys;
  }

  /** Every row with both a key and a value is counted once, under its key:
      the counts add up to the number of such rows, so never to more than the row count. */
  lemma GroupCountTotal(names: seq<Cell>, times: seq<Cell>)
    requires |names| == |times|
    ensures TotalCount(GroupCount(names, times)) == Paired(names, times) <= |names|
  {
    KeysTotal(names, times);
  }

  lemma {:induction false} KeysTotal(names: seq<Cell>, times: seq<Cell>)
    requires |names| == |times|
    ensures TotalCount(Tallied(Keys(names), names, times)) == Paired(names, times)
    decreases |names|
  {
    if names != [] {
      var n0, t0 := names[..|names| - 1], times[..|times| - 1];
      var x, y := names[|names| - 1], times[|times| - 1];
      assert names == n0 + [x] && times == t0 + [y];
      KeysTotal(n0, t0);
      var k0 := Keys(n0);
      TalliedExtend(k0, n0, t0, x, y);
      assert Paired(names, times) == Paired(n0, t0) + (if x != Missing && y != Missing then 1 else 0);
      if x != Missing && x !in k0 {
        assert Keys(names) == k0 + [x];
        ReportedAbsent(n0, t0, x);
        assert Reported(names, times, x) == (if y != Missing then 1 else 0);
        TalliedSnoc(k0, x, names, times);
      } else {
        assert Keys(names) == k0;
      }
    }
  }

  // -------------------------------------------------------- sort and head

  /** Ordered by count, largest first. */
  predicate NonIncreasing(ts: seq<Tally>)
  {
    forall i, j | 0 <= i < j < |ts| :: ts[i].count >= ts[j].count
  }

  /** Places `t` before the first tally with a count no larger than its own. */
  function Insert(t: Tally, ts: seq<Tally>): (r: seq<Tally>)
    ensures multiset(r) == multiset(ts) + multiset{t}
  {
    if ts == [] || ts[0].count <= t.count then [t] + ts
    else
      assert ts == [ts[0]] + ts[1..];
      [ts[0]] + Insert(t, ts[1..])
  }

  /** Inserting into a list ordered by count keeps it ordered. */
  lemma {:induction false} InsertOrdered(t: Tally, ts: seq<Tally>)
    requires NonIncreasing(ts)
    ensures NonIncreasing(Insert(t, ts))
  {
    if ts != [] && ts[0].count > t.count {
      var rest := Insert(t, ts[1..]);
      InsertOrdered(t, ts[1..]);
      forall j | 0 <= j < |rest| ensures rest[j].count <= ts[0].count {
        assert rest[j] in multiset(rest);
        if rest[j] != t {
          assert rest[j] in multiset(ts[1..]);
          var i :| 0 <= i < |ts[1..]| && ts[1..][i] == rest[j];
          assert ts[i + 1] == rest[j];
        }
      }
      assert Insert(t, ts) == [ts[0]] + rest;
    }
  }

  /** `sort_values(by='count', ascending=False)`: the same tallies, largest count first.
      The order among equal counts is not specified. */
  function SortByCount(ts: seq<Tally>): (r: seq<Tally>)
    ensures multiset(r) == multiset(ts)
    ensures NonIncreasing(r)
  {
    if ts == [] then []
    else
      assert ts == [ts[0]] + ts[1..];
      InsertOrdered(ts[0], SortByCount(ts[1..]));
      Insert(ts[0], SortByCount(ts[1..]))
  }

  /** `sort_values(by='count', ascending=False).head(n)`: at most `n` tallies,
      largest count first, none of them smaller than any tally left out. */
  function Top(ts: seq<Tally>, n: nat): (r: seq<Tally>)
    ensures |r| == if |ts| < n then |ts| else n
    ensures NonIncreasing(r)
    ensures multiset(r) <= multiset(ts)
    ensures forall t, u | t in multiset(ts) - multiset(r) && u in r :: t.count <= u.count
  {
    var s := SortByCount(ts);
    assert |s| == |ts| by { assert |multiset(s)| == |multiset(ts)|; }
    if |s| <= n then s
    else
      HeadDominates(s, n);
      s[..n]
  }

  /** In a list ordered by count, the first `n` tallies have counts no smaller than the rest. */
  lemma HeadDominates(s: seq<Tally>, n: nat)
    requires NonIncreasing(s) && n <= |s|
    ensures multiset(s[..n]) <= multiset(s)
    ensures forall t, u | t in multiset(s) - multiset(s[..n]) && u in s[..n] :: t.count <= u.count
  {
    assert s == s[..n] + s[n..];
    assert multiset(s) == multiset(s[..n]) + multiset(s[n..]);
    forall t, u | t in multiset(s) - multiset(s[..n]) && u in s[..n] ensures t.count <= u.count {
      assert t in multiset(s[n..]);
      var j :| 0 <= j < |s[n..]| && s[n..][j] == t;
      var i :| 0 <= i < n && s[i] == u;
      assert s[n + j] == t;
    }
  }
}
