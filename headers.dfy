/** The column labels the script works with at each stage, and the facts about them. */
module Headers {
  import opened Outcomes
  import opened Strings
  import opened Frames

  /** The columns kept from the export, in this order. */
  const ColsToKeep: seq<string> :=
    ["date_and_time", "Submission ID", "Common Name", "Count", "State/Province", "County", "Location", "Date", "Time"]

  /** The renaming applied to the kept columns. */
  const RenameCols: map<string, string> :=
    map["Submission ID" := "id", "Common Name" := "common", "State/Province" := "state"]

  /** The headers after renaming and lower-casing. */
  const Normalised: seq<string> :=
    ["date_and_time", "id", "common", "count", "state", "county", "location", "date", "time"]

  /** The headers of the cleaned frame. */
  const Cleaned: seq<string> := ["time", "id", "common", "count", "location", "county_state"]

  /** Renaming and then lower-casing the kept headers gives the normalised ones;
      each of them is its own lower-case form. */
  lemma NormalisedHeaders()
    ensures LowerAll(Renamed(ColsToKeep, RenameCols)) == Normalised
    ensures forall i | 0 <= i < |Normalised| :: Lower(Normalised[i]) == Normalised[i]
  {
    NormalisedAt(0, 3);
    NormalisedAt(3, 6);
    NormalisedAt(6, 9);
    LowerHeaders1();
    LowerHeaders2();
  }

  lemma NormalisedAt(lo: nat, hi: nat)
    requires lo <= hi <= 9 && hi - lo <= 3
    ensures forall i | lo <= i < hi :: LowerAll(Renamed(ColsToKeep, RenameCols))[i] == Normalised[i]
  {
    RenamedHeaders();
    LowerHeaders1();
    LowerHeaders2();
    var l := LowerAll(Renamed(ColsToKeep, RenameCols));
    if lo <= 0 < hi { assert l[0] == Normalised[0]; }
    if lo <= 1 < hi { assert l[1] == Normalised[1]; }
    if lo <= 2 < hi { assert l[2] == Normalised[2]; }
    if lo <= 3 < hi { assert l[3] == Normalised[3]; }
    if lo <= 4 < hi { assert l[4] == Normalised[4]; }
    if lo <= 5 < hi { assert l[5] == Normalised[5]; }
    if lo <= 6 < hi { assert l[6] == Normalised[6]; }
    if lo <= 7 < hi { assert l[7] == Normalised[7]; }
    if lo <= 8 < hi { assert l[8] == Normalised[8]; }
  }

  lemma LowerHeaders1()
    ensures Lower("date_and_time") == "date_and_time"
    ensures Lower("id") == "id"
    ensures Lower("common") == "common"
    ensures Lower("Count") == "count" && Lower("count") == "count"
    ensures Lower("state") == "state"
  {}

  lemma LowerHeaders2()
    ensures Lower("County") == "county" && Lower("county") == "county"
    ensures Lower("Location") == "location" && Lower("location") == "location"
    ensures Lower("Date") == "date" && Lower("date") == "date"
    ensures Lower("Time") == "time" && Lower("time") == "time"
  {}

  lemma RenamedHeaders()
    ensures Renamed(ColsToKeep, RenameCols)
         == ["date_and_time", "id", "common", "Count", "state", "County", "Location", "Date", "Time"]
  {
    assert RenameCols.Keys == {"Submission ID", "Common Name", "State/Province"};
    assert forall i | i in {0, 3, 5, 6, 7, 8} :: ColsToKeep[i] !in RenameCols;
  }

  /** The headers once `date` and `time` are dropped. */
  const Trimmed: seq<string> := ["date_and_time", "id", "common", "count", "state", "county", "location"]

  /** The headers once `date_and_time` is renamed to `time`. */
  const Retitled: seq<string> := ["time", "id", "common", "count", "state", "county", "location"]

  /** Dropping `date` and `time` from the normalised headers leaves the first seven. */
  lemma TrimmedLayout()
    ensures "date" in Normalised && "time" in Normalised
    ensures KeptPositions(Normalised, ["date", "time"]) == [0, 1, 2, 3, 4, 5, 6]
    ensures Select(Normalised, [0, 1, 2, 3, 4, 5, 6]) == Trimmed
  {
    DateTimePresent();
    KeptAfterDateTime();
    TrimmedSelected();
  }

  lemma DateTimePresent()
    ensures "date" in Normalised && "time" in Normalised
  {
    assert Normalised[7] == "date" && Normalised[8] == "time";
  }

  lemma TrimmedSelected()
    ensures Select(Normalised, [0, 1, 2, 3, 4, 5, 6]) == Trimmed
  {}

  /** Dropping `state` and `county` once `county_state` is added leaves the cleaned headers. */
  lemma CleanedLayout()
    ensures "state" in Combined && "county" in Combined
    ensures KeptPositions(Combined, ["state", "county"]) == [0, 1, 2, 3, 6, 7]
    ensures Select(Combined, [0, 1, 2, 3, 6, 7]) == Cleaned
  {
    StateCountyPresent();
    KeptAfterStateCounty();
    CleanedSelected();
  }

  lemma StateCountyPresent()
    ensures "state" in Combined && "county" in Combined
  {
    assert Combined[4] == "state" && Combined[5] == "county";
  }

  lemma CleanedSelected()
    ensures Select(Combined, [0, 1, 2, 3, 6, 7]) == Cleaned
  {}

  lemma KeptAfterDateTime()
    ensures KeptPositions(Normalised, ["date", "time"]) == [0, 1, 2, 3, 4, 5, 6]
  {
    KeptDateTimeTail();
    KeptDateTimeHead();
    assert [0, 1, 2, 3] + [4, 5, 6] == [0, 1, 2, 3, 4, 5, 6];
  }

  lemma KeptDateTimeTail()
    ensures KeptFrom(Normalised, ["date", "time"], 4) == [4, 5, 6]
  {
    var names := ["date", "time"];
    assert KeptFrom(Normalised, names, 7) == [];
    assert KeptFrom(Normalised, names, 6) == [6];
  }

  lemma KeptDateTimeHead()
    ensures KeptFrom(Normalised, ["date", "time"], 0) == [0, 1, 2, 3] + KeptFrom(Normalised, ["date", "time"], 4)
  {
    var names := ["date", "time"];
    assert KeptFrom(Normalised, names, 2) == [2, 3] + KeptFrom(Normalised, names, 4);
  }

  /** The headers once `county_state` is added. */
  const Combined: seq<string> := ["time", "id", "common", "count", "state", "county", "location", "county_state"]

  lemma KeptAfterStateCounty()
    ensures KeptPositions(Combined, ["state", "county"]) == [0, 1, 2, 3, 6, 7]
  {
    KeptStateCountyTail();
    KeptStateCountyHead();
  }

  lemma KeptStateCountyTail()
    ensures KeptFrom(Combined, ["state", "county"], 4) == [6, 7]
  {
    var names := ["state", "county"];
    assert KeptFrom(Combined, names, 7) == [7];
    assert KeptFrom(Combined, names, 5) == [6, 7];
  }

  lemma KeptStateCountyHead()
    ensures KeptFrom(Combined, ["state", "county"], 0) == [0, 1, 2, 3] + KeptFrom(Combined, ["state", "county"], 4)
  {
    var names := ["state", "county"];
    assert KeptFrom(Combined, names, 2) == [2, 3] + KeptFrom(Combined, names, 4);
  }

  lemma LookupNormalised()
    ensures IndexOf(Normalised, "date") == Some(7)
    ensures IndexOf(Trimmed, "date_and_time") == Some(0)
  {}

  lemma LookupRetitled()
    ensures IndexOf(Retitled, "state") == Some(4)
    ensures IndexOf(Retitled, "county") == Some(5)
    ensures IndexOf(Retitled, "county_state") == None
  {}

  lemma LookupCleaned()
    ensures IndexOf(Cleaned, "time") == Some(0)
    ensures IndexOf(Cleaned, "id") == Some(1)
    ensures IndexOf(Cleaned, "common") == Some(2)
    ensures IndexOf(Cleaned, "count") == Some(3)
  {}

  lemma RetitledHeaders()
    ensures Renamed(Trimmed, map["date_and_time" := "time"]) == Retitled
    ensures Retitled + ["county_state"] == Combined
  {}
}
