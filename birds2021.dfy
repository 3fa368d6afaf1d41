/** The cleaning-and-summarising script over an eBird checklist export. */
module Birds2021 {
  import opened Outcomes
  import opened Strings
  import opened Frames
  import opened Aggregates
  import opened Headers

  /** Rows whose date string is ordered before this one are dropped. */
  const Cutoff: string := "2021-01-01"

  /** The count recorded for a species seen but not counted. */
  const Sentinel: Cell := Text("X")

  /** How many species the frequency table shows. */
  const TopCount: nat := 25

  /** What joins a county to its state. */
  const Comma: Cell := Text(", ")

  /** What the script prints: the number of birds reported, the number of
      checklists, and the most frequently reported species. */
  datatype Report = Report(total: int, checklists: nat, top: seq<Tally>)

  // ------------------------------------------------------------ the reference

  /** A date that the filter drops: a string ordered before the cutoff. */
  predicate Early(date: Cell)
  {
    date.Text? && Below(date.s, Cutoff)
  }

  /** The projected rows of the export not dated before the cutoff, in their
      order: a KeyError if a kept column is missing, a TypeError if a date is
      neither a string nor missing. */
  function Dated(raw: Table): (r: Result<seq<Row>>)
    requires raw.Valid()
    ensures r.Ok? ==> |r.value| <= |raw.rows| && Width(r.value, 9)
  {
    match Positions(raw.columns, ColsToKeep)
    case Err(e) => Err(e)
    case Ok(ps) =>
      var projected := SelectRows(raw.rows, ps);
      match BelowMask(Field(projected, 7), Cutoff)
      case Err(e) => Err(e)
      case Ok(early) =>
        WhereWidth(projected, Negate(early), 9);
        Ok(Where(projected, Negate(early)))
  }

  /** `county + ', ' + state.str[-2:]` for one row. */
  function CountyState(county: Cell, state: Cell): (r: Result<Cell>)
    ensures r.Err? <==> county.Num? || county.Stamp?
    ensures r.Err? ==> r.error == TypeError
    ensures county.Text? && state.Text? ==> r == Ok(Text(county.s + ", " + LastTwo(state.s)))
    ensures county.Missing? || (county.Text? && !state.Text?) ==> r == Ok(Missing)
  {
    match Plus(county, Comma)
    case Err(e) => Err(e)
    case Ok(left) => Plus(left, SliceLastTwo(state))
  }

  /** The kept rows as the cleaned frame holds them, with the columns
      `time, id, common, count, location, county_state`; an AttributeError if
      `.str` refuses the state column, else a TypeError if a county cannot be
      joined to its state. */
  function CleanRows(kept: seq<Row>, toDatetime: Cell -> Cell): (r: Result<seq<Row>>)
    requires Width(kept, 9)
    ensures r.Ok? ==> |r.value| == |kept| && Width(r.value, 6)
    ensures !StrAccessible(Field(kept, 4)) ==> r == Err(AttributeError)
    ensures StrAccessible(Field(kept, 4)) ==>
      (r.Err? <==> exists k | 0 <= k < |kept| :: CountyState(kept[k][5], kept[k][4]).Err?)
    ensures StrAccessible(Field(kept, 4)) && r.Err? ==> r.error == TypeError
  {
    if !StrAccessible(Field(kept, 4)) then Err(AttributeError)
    else if exists k | 0 <= k < |kept| :: CountyState(kept[k][5], kept[k][4]).Err? then Err(TypeError)
    else Ok(seq(|kept|, k requires 0 <= k < |kept| => CleanRow(kept[k], toDatetime)))
  }

  /** One kept row as the cleaned frame holds it. */
  function CleanRow(row: Row, toDatetime: Cell -> Cell): (r: Row)
    requires |row| == 9 && CountyState(row[5], row[4]).Ok?
    ensures |r| == 6
  {
    [toDatetime(row[0]), row[1], row[2], row[3], row[6], CountyState(row[5], row[4]).value]
  }

  /** The cleaned frame `birds` (lines 12-30). */
  function Cleaning(raw: Table, toDatetime: Cell -> Cell): (r: Result<Table>)
    requires raw.Valid()
    ensures r.Ok? ==> r.value.Valid() && r.value.columns == Cleaned
  {
    match Dated(raw)
    case Err(e) => Err(e)
    case Ok(kept) =>
      match CleanRows(kept, toDatetime)
      case Err(e) => Err(e)
      case Ok(rows) => Ok(Table(Cleaned, rows))
  }

  /** A count column without its sentinel cells. */
  function Counted(counts: seq<Cell>): (r: seq<Cell>)
    ensures |r| <= |counts|
  {
    Where(counts, Negate(EqualMask(counts, Sentinel)))
  }

  /** The birds reported in a count column: the sentinel cells left out, the
      others converted to integers and added up. */
  function BirdTotal(counts: seq<Cell>): Result<int>
  {
    match AsInt(Counted(counts))
    case Err(e) => Err(e)
    case Ok(xs) => Ok(Sum(xs))
  }

  /** The printed results, computed from the rows of the cleaned frame. */
  function Summary(rows: seq<Row>): Result<Report>
    requires Width(rows, 6)
  {
    match BirdTotal(Field(rows, 3))
    case Err(e) => Err(e)
    case Ok(total) =>
      Ok(Report(total, UniqueCount(Field(rows, 1)), Top(GroupCount(Field(rows, 2), Field(rows, 0)), TopCount)))
  }

  /** The whole script, as one function of the export. */
  function Expected(raw: Table, toDatetime: Cell -> Cell): Result<Report>
    requires raw.Valid()
  {
    match Cleaning(raw, toDatetime)
    case Err(e) => Err(e)
    case Ok(t) => Summary(t.rows)
  }

  // ---------------------------------------------------------- the script

  /** `county + ', ' + state` down two columns: a TypeError if any pair cannot be added. */
  function JoinColumns(county: seq<Cell>, state: seq<Cell>): Result<seq<Cell>>
    requires |county| == |state|
  {
    match PlusColumns(county, seq(|county|, _ => Comma))
    case Err(e) => Err(e)
    case Ok(left) => PlusColumns(left, state)
  }

  /** Lines 12-30: the frame `birds`, cleaned step by step in place. */
  method CleanBirds(raw: Table, toDatetime: Cell -> Cell) returns (r: Result<Frame>)
    requires raw.Valid()
    ensures match Cleaning(raw, toDatetime)
      case Err(e) => r == Err(e)
      case Ok(t) => r.Ok? && fresh(r.value) && r.value.Valid() && r.value.Value() == t
  {
    r := DatedFrame(raw);
    if r.Ok? {
      var err := Tidy(r.value, toDatetime);
      if err.Some? {
        r := Err(err.value);
      }
    }
  }

  /** Lines 12-22: the kept columns of the export, renamed and lower-cased, and
      the rows dated before the cutoff dropped. */
  method DatedFrame(raw: Table) returns (r: Result<Frame>)
    requires raw.Valid()
    ensures match Dated(raw)
      case Err(e) => r == Err(e)
      case Ok(kept) => r.Ok? && fresh(r.value) && r.value.Valid() && r.value.Value() == Table(Normalised, kept)
  {
    r := NormalisedFrame(raw);
    if r.Ok? {
      var err := DropEarly(r.value);
      if err.Some? {
        r := Err(err.value);
      }
    }
  }

  /** Lines 23-30: the dated frame brought to the cleaned columns in place; an
      AttributeError if `.str` refuses the state column, a TypeError if a
      county cannot be joined to its state. */
  method Tidy(birds: Frame, toDatetime: Cell -> Cell) returns (err: Option<Error>)
    requires birds.Valid() && birds.columns == Normalised
    modifies birds
    ensures match CleanRows(old(birds.rows), toDatetime)
      case Err(e) => err == Some(e)
      case Ok(rows) => err == None && birds.Valid() && birds.Value() == Table(Cleaned, rows)
  {
    ghost var kept := birds.rows;
    Retime(birds, toDatetime);
    ghost var timed := birds.rows;
    err := JoinCountyState(birds);
    SlicedFields(kept, toDatetime, timed);
    JoinedCountyState(Field(kept, 5), Field(kept, 4));
    if err.None? {
      Assembled(kept, toDatetime, timed);
    }
  }

  /** Lines 12-18: the kept columns of the export, renamed and lower-cased. */
  method NormalisedFrame(raw: Table) returns (r: Result<Frame>)
    requires raw.Valid()
    ensures match Positions(raw.columns, ColsToKeep)
      case Err(e) => r == Err(e)
      case Ok(ps) => r.Ok? && fresh(r.value) && r.value.Valid() && r.value.Value() == Table(Normalised, SelectRows(raw.rows, ps))
  {
    var projected := Project(raw, ColsToKeep);
    if projected.Err? {
      return Err(projected.error);
    }
    var birds := new Frame(projected.value);
    birds.Rename(RenameCols);
    NormalisedHeaders();
    var err := birds.SetColumns(LowerAll(birds.columns));
    assert err == None;
    r := Ok(birds);
  }

  /** Line 22: the rows dated before the cutoff dropped in place; a TypeError,
      and no change, if a date cannot be compared with a string. */
  method DropEarly(birds: Frame) returns (err: Option<Error>)
    requires birds.Valid() && birds.columns == Normalised
    modifies birds
    ensures birds.Valid() && birds.columns == Normalised
    ensures match BelowMask(Field(old(birds.rows), 7), Cutoff)
      case Err(e) => err == Some(e) && birds.rows == old(birds.rows)
      case Ok(early) => err == None && birds.rows == Where(old(birds.rows), Negate(early))
  {
    LookupNormalised();
    var early := BelowMask(Column(birds.Value(), "date").value, Cutoff);
    if early.Err? {
      return Some(early.error);
    }
    birds.DropRows(early.value);
    err := None;
  }

  /** Lines 23-25: `date` and `time` dropped, `date_and_time` converted and renamed to `time`. */
  method Retime(birds: Frame, toDatetime: Cell -> Cell)
    requires birds.Valid() && birds.columns == Normalised
    modifies birds
    ensures birds.Valid() && birds.columns == Retitled
    ensures var trimmed := TrimRows(old(birds.rows));
      birds.rows == ReplaceField(trimmed, 0, MapCells(toDatetime, Field(trimmed, 0)))
  {
    DropDateTime(birds.Value());
    var err := birds.DropColumns(["date", "time"]);
    LookupNormalised();
    birds.Assign("date_and_time", MapCells(toDatetime, Column(birds.Value(), "date_and_time").value));
    RetitledHeaders();
    birds.Rename(map["date_and_time" := "time"]);
  }

  /** Lines 28-30: the state cut to its last two characters, joined to the
      county as `county_state`, and both dropped; an AttributeError, and no
      change, if `.str` refuses the state column; a TypeError if a county
      cannot be joined. */
  method JoinCountyState(birds: Frame) returns (err: Option<Error>)
    requires birds.Valid() && birds.columns == Retitled
    modifies birds
    ensures birds.Valid()
    ensures !StrAccessible(Field(old(birds.rows), 4)) ==>
      err == Some(AttributeError) && birds.Value() == old(birds.Value())
    ensures StrAccessible(Field(old(birds.rows), 4)) ==>
      var sliced := ReplaceField(old(birds.rows), 4, MapCells(SliceLastTwo, Field(old(birds.rows), 4)));
      match JoinColumns(Field(sliced, 5), Field(sliced, 4))
      case Err(e) => err == Some(e)
      case Ok(joined) => err == None && birds.Value() == Table(Cleaned, PickRows(AppendField(sliced, joined)))
  {
    LookupRetitled();
    var state := SliceColumn(Column(birds.Value(), "state").value);
    if state.Err? {
      return Some(state.error);
    }
    birds.Assign("state", state.value);
    var joined := JoinColumns(Column(birds.Value(), "county").value, Column(birds.Value(), "state").value);
    if joined.Err? {
      return Some(joined.error);
    }
    birds.Assign("county_state", joined.value);
    DropStateCounty(birds.Value());
    err := birds.DropColumns(["state", "county"]);
  }

  // ---------------------------------------------------- steps of the cleaning

  /** The first seven cells of every row. */
  function TrimRows(rows: seq<Row>): (r: seq<Row>)
    requires Width(rows, 9)
    ensures |r| == |rows| && forall k | 0 <= k < |rows| :: r[k] == rows[k][..7]
  {
    seq(|rows|, k requires 0 <= k < |rows| => rows[k][..7])
  }

  /** Every row without its cells at positions 4 and 5. */
  function PickRows(rows: seq<Row>): (r: seq<Row>)
    requires Width(rows, 8)
    ensures |r| == |rows|
    ensures forall k | 0 <= k < |rows| :: r[k] == [rows[k][0], rows[k][1], rows[k][2], rows[k][3], rows[k][6], rows[k][7]]
  {
    seq(|rows|, k requires 0 <= k < |rows| => [rows[k][0], rows[k][1], rows[k][2], rows[k][3], rows[k][6], rows[k][7]])
  }

  /** Dropping `date` and `time` from the normalised frame keeps the first seven cells of each row. */
  lemma DropDateTime(t: Table)
    requires t.Valid() && t.columns == Normalised
    ensures ColumnsDropped(t, ["date", "time"]) == Ok(Table(Trimmed, TrimRows(t.rows)))
  {
    TrimmedLayout();
    var ps: seq<nat> := [0, 1, 2, 3, 4, 5, 6];
    ColumnsDroppedAt(t, ["date", "time"], ps);
    TrimmedRows(t.rows, ps);
  }

  lemma TrimmedRows(rows: seq<Row>, ps: seq<nat>)
    requires Width(rows, 9) && ps == [0, 1, 2, 3, 4, 5, 6]
    ensures SelectRows(rows, ps) == TrimRows(rows)
  {
    forall k | 0 <= k < |rows| ensures SelectRows(rows, ps)[k] == TrimRows(rows)[k] {
      assert forall j | 0 <= j < 7 :: ps[j] == j;
    }
  }

  /** Dropping `state` and `county` once `county_state` is added keeps the other six cells. */
  lemma DropStateCounty(t: Table)
    requires t.Valid() && t.columns == Retitled + ["county_state"]
    ensures ColumnsDropped(t, ["state", "county"]) == Ok(Table(Cleaned, PickRows(t.rows)))
  {
    RetitledHeaders();
    CleanedLayout();
    var ps: seq<nat> := [0, 1, 2, 3, 6, 7];
    ColumnsDroppedAt(t, ["state", "county"], ps);
    PickedRows(t.rows, ps);
  }

  lemma PickedRows(rows: seq<Row>, ps: seq<nat>)
    requires Width(rows, 8) && ps == [0, 1, 2, 3, 6, 7]
    ensures SelectRows(rows, ps) == PickRows(rows)
  {
    forall k | 0 <= k < |rows| ensures SelectRows(rows, ps)[k] == PickRows(rows)[k] {}
  }

  /** The rows once the time is converted and the state sliced. */
  function SlicedRows(kept: seq<Row>, toDatetime: Cell -> Cell): (r: seq<Row>)
    requires Width(kept, 9)
    ensures Width(r, 7)
  {
    var trimmed := TrimRows(kept);
    var timed := ReplaceField(trimmed, 0, MapCells(toDatetime, Field(trimmed, 0)));
    ReplaceField(timed, 4, MapCells(SliceLastTwo, Field(timed, 4)))
  }

  /** Once the time is converted and the state sliced, the county column is the
      kept rows' and the state column their state cut to its last two characters. */
  lemma SlicedFields(kept: seq<Row>, toDatetime: Cell -> Cell, timed: seq<Row>)
    requires Width(kept, 9)
    requires timed == ReplaceField(TrimRows(kept), 0, MapCells(toDatetime, Field(TrimRows(kept), 0)))
    ensures ReplaceField(timed, 4, MapCells(SliceLastTwo, Field(timed, 4))) == SlicedRows(kept, toDatetime)
    ensures Field(SlicedRows(kept, toDatetime), 5) == Field(kept, 5)
    ensures Field(SlicedRows(kept, toDatetime), 4) == MapCells(SliceLastTwo, Field(kept, 4))
    ensures Field(timed, 4) == Field(kept, 4)
  {
  }

  /** The rows after the last drop are the cleaned rows of the reference. */
  lemma Assembled(kept: seq<Row>, toDatetime: Cell -> Cell, timed: seq<Row>)
    requires Width(kept, 9)
    requires timed == ReplaceField(TrimRows(kept), 0, MapCells(toDatetime, Field(TrimRows(kept), 0)))
    requires CleanRows(kept, toDatetime).Ok?
    ensures var sliced := SlicedRows(kept, toDatetime);
      JoinColumns(Field(sliced, 5), Field(sliced, 4)).Ok?
      && PickRows(AppendField(sliced, JoinColumns(Field(sliced, 5), Field(sliced, 4)).value))
         == CleanRows(kept, toDatetime).value
  {
    SlicedFields(kept, toDatetime, timed);
    JoinedCountyState(Field(kept, 5), Field(kept, 4));
    var sliced := SlicedRows(kept, toDatetime);
    var joined := JoinColumns(Field(sliced, 5), Field(sliced, 4)).value;
    var cleaned := CleanRows(kept, toDatetime).value;
    forall k | 0 <= k < |kept| ensures PickRows(AppendField(sliced, joined))[k] == cleaned[k] {
      assert sliced[k] == kept[k][..7][0 := toDatetime(kept[k][0])][4 := SliceLastTwo(kept[k][4])];
    }
  }

  /** Joining the county column to the sliced state column fails exactly when
      some row's `CountyState` fails, and otherwise gives each row's. */
  lemma JoinedCountyState(county: seq<Cell>, state: seq<Cell>)
    requires |county| == |state|
    ensures JoinColumns(county, MapCells(SliceLastTwo, state))
         == if exists k | 0 <= k < |county| :: CountyState(county[k], state[k]).Err? then Err(TypeError)
            else Ok(seq(|county|, k requires 0 <= k < |county| => CountyState(county[k], state[k]).value))
  {
    if exists k | 0 <= k < |county| :: CountyState(county[k], state[k]).Err? {
      var k :| 0 <= k < |county| && CountyState(county[k], state[k]).Err?;
      JoinFails(county, state, k);
    } else {
      JoinSucceeds(county, state);
    }
  }

  /** A row whose county cannot be joined makes the whole column fail. */
  lemma JoinFails(county: seq<Cell>, state: seq<Cell>, k: nat)
    requires |county| == |state| && k < |county| && CountyState(county[k], state[k]).Err?
    ensures JoinColumns(county, MapCells(SliceLastTwo, state)) == Err(TypeError)
  {
    var commas := seq(|county|, _ => Comma);
    assert Plus(county[k], commas[k]).Err?;
  }

  /** When every row can be joined, the column holds each row's join. */
  lemma JoinSucceeds(county: seq<Cell>, state: seq<Cell>)
    requires |county| == |state| && forall k | 0 <= k < |county| :: CountyState(county[k], state[k]).Ok?
    ensures JoinColumns(county, MapCells(SliceLastTwo, state))
         == Ok(seq(|county|, k requires 0 <= k < |county| => CountyState(county[k], state[k]).value))
  {
    var commas := seq(|county|, _ => Comma);
    var sliced := MapCells(SliceLastTwo, state);
    var left := PlusColumns(county, commas);
    assert left.Ok? by {
      forall k | 0 <= k < |county| ensures Plus(county[k], commas[k]).Ok? {
        assert CountyState(county[k], state[k]).Ok?;
      }
    }
    forall k | 0 <= k < |county| ensures Plus(left.value[k], sliced[k]) == CountyState(county[k], state[k]) {}
    var joined := PlusColumns(left.value, sliced);
    assert joined.Ok?;
    assert joined.value == seq(|county|, k requires 0 <= k < |county| => CountyState(county[k], state[k]).value);
  }

  // ------------------------------------------------------- the two answers

  /** Lines 35-40: on a copy of `birds`, the sentinel rows dropped, the counts
      converted to integers and added up. `birds` itself is left as it was. */
  method TotalBirds(birds: Frame) returns (r: Result<int>)
    requires birds.Valid() && birds.columns == Cleaned
    ensures r == BirdTotal(Field(birds.rows, 3))
  {
    var total := birds.Copy();
    LookupCleaned();
    var counts := Column(total.Value(), "count").value;
    var sentinel := EqualMask(counts, Sentinel);
    total.DropRows(sentinel);
    FieldWhere(birds.rows, Negate(sentinel), 6, 3);
    var ints := AsInt(Column(total.Value(), "count").value);
    if ints.Err? {
      return Err(ints.error);
    }
    total.Assign("count", seq(|ints.value|, k requires 0 <= k < |ints.value| => Num(ints.value[k])));
    r := Ok(Sum(ints.value));
  }

  /** Lines 44-50: on another copy of `birds`, the number of distinct checklist
      ids and the 25 species reported on the most rows. */
  method Frequency(birds: Frame) returns (checklists: nat, top: seq<Tally>)
    requires birds.Valid() && birds.columns == Cleaned
    ensures checklists == UniqueCount(Field(birds.rows, 1))
    ensures top == Top(GroupCount(Field(birds.rows, 2), Field(birds.rows, 0)), TopCount)
  {
    var freq := birds.Copy();
    LookupCleaned();
    checklists := UniqueCount(Column(freq.Value(), "id").value);
    var counted := GroupCount(Column(freq.Value(), "common").value, Column(freq.Value(), "time").value);
    top := Top(counted, TopCount);
  }

  /** The whole script: clean the export, then answer both questions. */
  method Run(raw: Table, toDatetime: Cell -> Cell) returns (r: Result<Report>)
    requires raw.Valid()
    ensures r == Expected(raw, toDatetime)
  {
    var cleaned := CleanBirds(raw, toDatetime);
    if cleaned.Err? {
      return Err(cleaned.error);
    }
    var birds := cleaned.value;
    var total := TotalBirds(birds);
    if total.Err? {
      return Err(total.error);
    }
    var checklists, top := Frequency(birds);
    r := Ok(Report(total.value, checklists, top));
  }
}
