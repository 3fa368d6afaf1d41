/** What the script promises, stated over the reference functions of `Birds2021`. */
module Birds2021Properties {
  import opened Outcomes
  import opened Strings
  import opened Frames
  import opened Aggregates
  import opened Headers
  import opened Birds2021

  // ------------------------------------------------------------ date filter

  /** A row survives the date filter exactly when it is the projection of an
      input row whose date is not ordered before the cutoff. */
  lemma DatedKept(raw: Table, row: Row)
    requires raw.Valid() && Dated(raw).Ok?
    ensures row in Dated(raw).value <==>
      |row| == 9 && !Early(row[7]) &&
      exists k | 0 <= k < |raw.rows| :: row == Select(raw.rows[k], Positions(raw.columns, ColsToKeep).value)
  {
    var ps := Positions(raw.columns, ColsToKeep).value;
    var projected := SelectRows(raw.rows, ps);
    var early := BelowMask(Field(projected, 7), Cutoff).value;
    var keep := Negate(early);
    assert forall k | 0 <= k < |projected| :: keep[k] == !Early(projected[k][7]) by {
      forall k | 0 <= k < |projected| ensures keep[k] == !Early(projected[k][7]) {
        assert CellBelow(Field(projected, 7)[k], Cutoff) == Ok(early[k]);
      }
    }
    WhereMembers(projected, keep, row);
  }

  /** The filter treats the rows one by one and keeps the survivors in their
      input order: filtering a concatenation concatenates the filtered parts. */
  lemma DatedAppend(columns: seq<string>, a: seq<Row>, b: seq<Row>)
    requires Width(a, |columns|) && Width(b, |columns|)
    ensures Width(a + b, |columns|)
    ensures Dated(Table(columns, a + b)).Ok? <==> Dated(Table(columns, a)).Ok? && Dated(Table(columns, b)).Ok?
    ensures Dated(Table(columns, a + b)).Ok? ==>
      Dated(Table(columns, a + b)).value == Dated(Table(columns, a)).value + Dated(Table(columns, b)).value
  {
    assert forall k | 0 <= k < |b| :: (a + b)[|a| + k] == b[k];
    if Positions(columns, ColsToKeep).Ok? {
      var ps := Positions(columns, ColsToKeep).value;
      SelectRowsAppend(a, b, |columns|, ps);
      var pa, pb := SelectRows(a, ps), SelectRows(b, ps);
      FieldAppend(pa, pb, 9, 7);
      BelowMaskAppend(Field(pa, 7), Field(pb, 7), Cutoff);
      if BelowMask(Field(pa + pb, 7), Cutoff).Ok? {
        var ea, eb := BelowMask(Field(pa, 7), Cutoff).value, BelowMask(Field(pb, 7), Cutoff).value;
        NegateAppend(ea, eb);
        WhereAppend(pa, Negate(ea), pb, Negate(eb));
      }
    }
  }

  /** A missing column is a KeyError naming it, and only a missing column is. */
  lemma DatedKeyErrors(raw: Table)
    requires raw.Valid()
    ensures (Dated(raw).Err? && Dated(raw).error.KeyError?) <==> exists n | n in ColsToKeep :: n !in raw.columns
    ensures Dated(raw).Err? && Dated(raw).error.KeyError? ==>
      Dated(raw).error.name in ColsToKeep && Dated(raw).error.name !in raw.columns
  {
    if Positions(raw.columns, ColsToKeep).Ok? {
      var ps := Positions(raw.columns, ColsToKeep).value;
      var dates := Field(SelectRows(raw.rows, ps), 7);
      assert BelowMask(dates, Cutoff).Err? ==> BelowMask(dates, Cutoff).error == TypeError;
    }
  }

  /** With every column present, the filter fails, with a TypeError, exactly
      when some date is a number or a timestamp. */
  lemma DatedTypeErrors(raw: Table)
    requires raw.Valid() && forall n | n in ColsToKeep :: n in raw.columns
    ensures Dated(raw).Err? <==> exists k | 0 <= k < |raw.rows| ::
      !(raw.rows[k][IndexOf(raw.columns, "Date").value].Text? || raw.rows[k][IndexOf(raw.columns, "Date").value].Missing?)
    ensures Dated(raw).Err? ==> Dated(raw).error == TypeError
  {
    var ps := Positions(raw.columns, ColsToKeep).value;
    DatePosition(raw.columns, ps);
    var dates := Field(SelectRows(raw.rows, ps), 7);
    DatesProjected(raw.rows, ps, dates);
    DatedMask(raw, ps, dates);
    var d := ps[7];
    assert (exists k | 0 <= k < |dates| :: CellBelow(dates[k], Cutoff).Err?)
       <==> exists k | 0 <= k < |raw.rows| :: !(raw.rows[k][d].Text? || raw.rows[k][d].Missing?);
  }

  /** With every column present, the filter fails exactly when the date mask does. */
  lemma DatedMask(raw: Table, ps: seq<nat>, dates: seq<Cell>)
    requires raw.Valid() && Positions(raw.columns, ColsToKeep) == Ok(ps)
    requires dates == Field(SelectRows(raw.rows, ps), 7)
    ensures Dated(raw).Err? <==> BelowMask(dates, Cutoff).Err?
    ensures Dated(raw).Err? ==> Dated(raw).error == TypeError
  {
  }

  /** The eighth kept column is the export's `Date`. */
  lemma DatePosition(columns: seq<string>, ps: seq<nat>)
    requires Positions(columns, ColsToKeep) == Ok(ps)
    ensures IndexOf(columns, "Date") == Some(ps[7])
  {
    assert ColsToKeep[7] == "Date";
  }

  /** The projected date column holds each row's date cell. */
  lemma DatesProjected(rows: seq<Row>, ps: seq<nat>, dates: seq<Cell>)
    requires |ps| == 9 && forall k, j | 0 <= k < |rows| && 0 <= j < |ps| :: ps[j] < |rows[k]|
    requires dates == Field(SelectRows(rows, ps), 7)
    ensures |dates| == |rows| && forall k | 0 <= k < |rows| :: dates[k] == rows[k][ps[7]]
  {
  }

  /** A date the filter keeps is followed, in string order, only by dates it keeps. */
  lemma LaterDatesKept(a: string, b: string)
    requires !Early(Text(a)) && Below(a, b)
    ensures !Early(Text(b))
  {
    if Below(b, Cutoff) {
      BelowTransitive(a, b, Cutoff);
    }
  }

  /** The last day of 2020 is dropped and the cutoff itself is kept. The
      comparison is on strings, not on dates: a date written month first is
      kept whatever its year. */
  lemma CutoffBoundary()
    ensures Early(Text("2020-12-31"))
    ensures !Early(Text(Cutoff))
    ensures !Early(Text("6/20/2014"))
  {
    BelowIrreflexive(Cutoff);
    assert "2020-12-31"[..3] == Cutoff[..3];
  }

  // ------------------------------------------------------------ county and state

  /** Each cleaned row is its filtered row with the time converted, `location`
      moved up, and `county_state` the row's county joined to its state. */
  lemma CleanedRow(kept: seq<Row>, toDatetime: Cell -> Cell, k: nat)
    requires Width(kept, 9) && CleanRows(kept, toDatetime).Ok? && k < |kept|
    ensures var row := CleanRows(kept, toDatetime).value[k];
      && row[0] == toDatetime(kept[k][0])
      && row[1] == kept[k][1] && row[2] == kept[k][2] && row[3] == kept[k][3] && row[4] == kept[k][6]
      && CountyState(kept[k][5], kept[k][4]) == Ok(row[5])
  {
    assert CountyState(kept[k][5], kept[k][4]).Ok?;
    assert CleanRows(kept, toDatetime).value[k] == CleanRow(kept[k], toDatetime);
  }

  /** A state column of numbers only, once the early rows are gone, stops the
      script at `.str` with an AttributeError. */
  lemma NumericStatesRefused(raw: Table, toDatetime: Cell -> Cell)
    requires raw.Valid() && Dated(raw).Ok? && |Dated(raw).value| > 0
    requires forall k | 0 <= k < |Dated(raw).value| :: Dated(raw).value[k][4].Num?
    ensures Cleaning(raw, toDatetime) == Err(AttributeError)
    ensures Expected(raw, toDatetime) == Err(AttributeError)
  {
    var states := Field(Dated(raw).value, 4);
    assert states[0].Num?;
    assert !StrAccessible(states);
  }

  // ------------------------------------------------------------ sentinel drop

  /** What remains of a count column is every cell but the sentinel ones. */
  lemma CountedMembers(counts: seq<Cell>, c: Cell)
    ensures c in Counted(counts) <==> c in counts && c != Sentinel
  {
    WhereMembers(counts, Negate(EqualMask(counts, Sentinel)), c);
  }

  /** The sentinel drop works cell by cell and keeps the order of the rest. */
  lemma CountedAppend(a: seq<Cell>, b: seq<Cell>)
    ensures Counted(a + b) == Counted(a) + Counted(b)
  {
    EqualMaskAppend(a, b, Sentinel);
    NegateAppend(EqualMask(a, Sentinel), EqualMask(b, Sentinel));
    WhereAppend(a, Negate(EqualMask(a, Sentinel)), b, Negate(EqualMask(b, Sentinel)));
  }

  /** On the fixture's count column the sentinel row goes and the rest stay in order. */
  lemma CountedFixture()
    ensures Counted([Num(100), Text("X"), Num(300), Num(400)]) == [Num(100), Num(300), Num(400)]
  {
    var counts := [Num(100), Text("X"), Num(300), Num(400)];
    CountedAppend([Num(100), Text("X")], [Num(300), Num(400)]);
    CountedAppend([Num(100)], [Text("X")]);
    CountedAppend([Num(300)], [Num(400)]);
    assert counts == [Num(100), Text("X")] + [Num(300), Num(400)];
  }

  // ------------------------------------------------------------ the total

  /** The total of one cell: nothing for the sentinel, else its integer value. */
  lemma BirdTotalCell(c: Cell)
    ensures c == Sentinel ==> BirdTotal([c]) == Ok(0)
    ensures c != Sentinel && CellToInt(c).Ok? ==> BirdTotal([c]) == Ok(CellToInt(c).value)
    ensures c != Sentinel && CellToInt(c).Err? ==> BirdTotal([c]) == Err(CellToInt(c).error)
  {
    assert Counted([c]) == if c == Sentinel then [] else [c];
    AsIntCells([c]);
    if c != Sentinel && AsInt([c]).Ok? {
      var n := CellToInt(c).value;
      assert AsInt([c]).value == [n];
      assert Sum([n]) == n by { assert [n][..0] == []; }
    }
  }

  /** The total is additive over a split of the rows, and fails when either part fails. */
  lemma BirdTotalAppend(a: seq<Cell>, b: seq<Cell>)
    ensures BirdTotal(a + b).Ok? <==> BirdTotal(a).Ok? && BirdTotal(b).Ok?
    ensures BirdTotal(a + b).Ok? ==> BirdTotal(a + b).value == BirdTotal(a).value + BirdTotal(b).value
  {
    CountedAppend(a, b);
    AsIntAppend(Counted(a), Counted(b));
    if AsInt(Counted(a + b)).Ok? {
      SumAppend(AsInt(Counted(a)).value, AsInt(Counted(b)).value);
    }
  }

  /** The total exists exactly when every count but the sentinel ones is an integer. */
  lemma BirdTotalOk(counts: seq<Cell>)
    ensures BirdTotal(counts).Ok? <==> forall k | 0 <= k < |counts| :: counts[k] != Sentinel ==> CellToInt(counts[k]).Ok?
  {
    var kept := Counted(counts);
    AsIntCells(kept);
    if forall k | 0 <= k < |counts| :: counts[k] != Sentinel ==> CellToInt(counts[k]).Ok? {
      forall j | 0 <= j < |kept| ensures CellToInt(kept[j]).Ok? {
        CountedMembers(counts, kept[j]);
      }
    }
    if BirdTotal(counts).Ok? {
      forall k | 0 <= k < |counts| && counts[k] != Sentinel ensures CellToInt(counts[k]).Ok? {
        CountedMembers(counts, counts[k]);
      }
    }
  }

  /** The total of two rows, each with a total of its own. */
  lemma BirdTotalTwo(c: Cell, d: Cell)
    requires BirdTotal([c]).Ok? && BirdTotal([d]).Ok?
    ensures BirdTotal([c, d]) == Ok(BirdTotal([c]).value + BirdTotal([d]).value)
  {
    BirdTotalAppend([c], [d]);
    assert [c] + [d] == [c, d];
  }

  /** The total of four rows, split into two pairs. */
  lemma BirdTotalFour(c: Cell, d: Cell, e: Cell, f: Cell)
    requires BirdTotal([c, d]).Ok? && BirdTotal([e, f]).Ok?
    ensures BirdTotal([c, d, e, f]) == Ok(BirdTotal([c, d]).value + BirdTotal([e, f]).value)
  {
    BirdTotalAppend([c, d], [e, f]);
    assert [c, d] + [e, f] == [c, d, e, f];
  }

  /** The fixture's counts add up to 800 once the sentinel row is left out. */
  lemma BirdTotalFixture()
    ensures BirdTotal([Num(100), Text("X"), Num(300), Num(400)]) == Ok(800)
  {
    BirdTotalCell(Num(100));
    BirdTotalCell(Text("X"));
    BirdTotalCell(Num(300));
    BirdTotalCell(Num(400));
    BirdTotalTwo(Num(100), Text("X"));
    BirdTotalTwo(Num(300), Num(400));
    BirdTotalFour(Num(100), Text("X"), Num(300), Num(400));
  }

  /** The fixture's ids add up to 11602. */
  lemma IdTotalFixture()
    ensures Sum([1234, 2345, 3456, 4567]) == 11602
  {
    SumAppend([1234, 2345], [3456, 4567]);
    assert [1234, 2345] + [3456, 4567] == [1234, 2345, 3456, 4567];
  }

  // ------------------------------------------------------------ the summary

  /** The printed figures, for any cleaned table: at most one checklist per
      row, at most 25 species, largest counts first, each the number of that
      species' timed rows, and the counts of all species together at most the
      number of rows. */
  lemma SummaryBounds(rows: seq<Row>)
    requires Width(rows, 6)
    ensures UniqueCount(Field(rows, 1)) <= |rows|
    ensures var top := Top(GroupCount(Field(rows, 2), Field(rows, 0)), TopCount);
      && |top| <= TopCount
      && NonIncreasing(top)
      && forall t | t in top :: t.species != Missing && t.count == Reported(Field(rows, 2), Field(rows, 0), t.species)
    ensures TotalCount(GroupCount(Field(rows, 2), Field(rows, 0))) <= |rows|
  {
    var groups := GroupCount(Field(rows, 2), Field(rows, 0));
    var top := Top(groups, TopCount);
    GroupCountTotal(Field(rows, 2), Field(rows, 0));
    forall t | t in top ensures t.species != Missing && t.count == Reported(Field(rows, 2), Field(rows, 0), t.species) {
      assert t in multiset(top);
      assert t in multiset(groups);
      var i :| 0 <= i < |groups| && groups[i] == t;
    }
  }

  /** The count column plays no part in the frequency figures: rows whose count
      is the sentinel are still counted there. */
  lemma FrequencyIgnoresCounts(rows: seq<Row>, other: seq<Row>)
    requires Width(rows, 6) && Width(other, 6) && |rows| == |other|
    requires forall k, i | 0 <= k < |rows| && 0 <= i < 6 && i != 3 :: other[k][i] == rows[k][i]
    ensures UniqueCount(Field(other, 1)) == UniqueCount(Field(rows, 1))
    ensures Top(GroupCount(Field(other, 2), Field(other, 0)), TopCount)
         == Top(GroupCount(Field(rows, 2), Field(rows, 0)), TopCount)
  {
    assert Field(other, 0) == Field(rows, 0);
    assert Field(other, 1) == Field(rows, 1);
    assert Field(other, 2) == Field(rows, 2);
  }
}
