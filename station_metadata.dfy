/**
 * Station metadata: `pd.read_fwf` of the fixed-width station list with nine
 * column ranges, the divider line skipped, and the `Bundesland` mask.
 *
 * A line is a decoded text line of the file (without its line break); a row is
 * the nine fields cut from one data line, with surrounding blanks removed as
 * `read_fwf` does.
 */
module StationMetadata {
  import opened Wrappers
  import opened Seqs

  /** The `colspecs` argument: half-open character ranges, one per column. */
  const COLSPECS: seq<(nat, nat)> :=
    [(0, 6), (6, 15), (15, 24), (24, 40), (40, 50), (50, 60), (60, 100), (100, 130), (130, 140)]

  /** Names assigned to the columns after reading. */
  const COLUMNS: seq<string> :=
    ["Stations_id", "von_datum", "bis_datum", "Stationshoehe", "geoBreite",
     "geoLaenge", "Stationsname", "Bundesland", "Abgabe"]

  /** Index of the `Stations_id` column. */
  const STATIONS_ID: nat := 0

  /** Index of the `Bundesland` column. */
  const BUNDESLAND_FIELD: nat := 7

  /** There is one name per column range, and the two columns read by index are named as used. */
  lemma ColumnNames()
    ensures |COLUMNS| == |COLSPECS|
    ensures COLUMNS[STATIONS_ID] == "Stations_id" && COLUMNS[BUNDESLAND_FIELD] == "Bundesland"
  {
  }

  /** One parsed station record: one field per column of `COLUMNS`. */
  type Row = r: seq<string> | |r| == 9 witness ["", "", "", "", "", "", "", "", ""]

  datatype MetadataError =
    /** pandas' EmptyDataError: the file has no line to take the header from. */
    EmptyData

  /** The blanks `read_fwf` strips from both ends of a field. */
  predicate IsPadding(c: char) { c == ' ' || c == '\t' }

  function LeadingPadding(s: string): (k: nat)
    ensures k <= |s|
    ensures forall i :: 0 <= i < k ==> IsPadding(s[i])
    ensures k < |s| ==> !IsPadding(s[k])
  {
    if s == [] || !IsPadding(s[0]) then 0 else 1 + LeadingPadding(s[1..])
  }

  function TrailingPadding(s: string): (k: nat)
    ensures k <= |s|
    ensures forall i :: |s| - k <= i < |s| ==> IsPadding(s[i])
    ensures k < |s| ==> !IsPadding(s[|s| - k - 1])
  {
    if s == [] || !IsPadding(s[|s| - 1]) then 0 else 1 + TrailingPadding(s[..|s| - 1])
  }

  /** `s` with leading and trailing blanks removed; everything removed is a blank. */
  function Strip(s: string): (r: string)
    ensures |r| <= |s|
    ensures r != [] ==> !IsPadding(r[0]) && !IsPadding(r[|r| - 1])
    ensures exists i ::
      (0 <= i <= |s| - |r| && OccursAt(s, r, i) &&
       (forall j :: 0 <= j < i ==> IsPadding(s[j])) &&
       (forall j :: i + |r| <= j < |s| ==> IsPadding(s[j])))
  {
    var a := LeadingPadding(s);
    var rest := s[a..];
    var b := |rest| - TrailingPadding(rest);
    assert OccursAt(s, rest[..b], a);
    rest[..b]
  }

  /** Python's `line[lo:hi]`: the range is clipped to the line, and empty when `lo >= hi`. */
  function Slice(line: string, lo: nat, hi: nat): (r: string)
  {
    var e := if hi <= |line| then hi else |line|;
    var b := if lo <= e then lo else e;
    line[b..e]
  }

  /** The slices of `line` for a list of column ranges, in order. */
  function Cut(line: string, specs: seq<(nat, nat)>): (fs: seq<string>)
    ensures |fs| == |specs|
  {
    seq(|specs|, k requires 0 <= k < |specs| => Slice(line, specs[k].0, specs[k].1))
  }

  /** The nine raw (unstripped) fields of one line. */
  function RawFields(line: string): (fs: seq<string>)
    ensures |fs| == |COLSPECS|
  {
    Cut(line, COLSPECS)
  }

  /** One data line cut into its nine fields. */
  function SliceLine(line: string): (row: Row)
    ensures forall k :: 0 <= k < |COLSPECS| ==> row[k] == Strip(RawFields(line)[k])
  {
    seq(9, k requires 0 <= k < 9 => Strip(RawFields(line)[k]))
  }

  function Concat(ss: seq<string>): string
  {
    if ss == [] then [] else Concat(ss[..|ss| - 1]) + ss[|ss| - 1]
  }

  /** The column ranges start at 0, each ends where the next begins, and the last ends at 140. */
  lemma ColumnsContiguous()
    ensures COLSPECS[0].0 == 0 && COLSPECS[|COLSPECS| - 1].1 == 140
    ensures forall k :: 0 <= k < |COLSPECS| ==> COLSPECS[k].0 < COLSPECS[k].1
    ensures forall k :: 0 < k < |COLSPECS| ==> COLSPECS[k - 1].1 == COLSPECS[k].0
  {
  }

  /**
   * The raw fields tile the line: read in order they give back its first 140
   * characters, so every character there lands in exactly one column.
   */
  lemma FieldsTileLine(line: string)
    ensures Concat(RawFields(line)) == line[..if |line| < 140 then |line| else 140]
  {
    ColumnsContiguous();
    CutTiles(line, COLSPECS);
  }

  /** Contiguous ranges starting at 0 cut a line into pieces that concatenate to its prefix. */
  lemma {:induction false} CutTiles(line: string, specs: seq<(nat, nat)>)
    requires specs != [] && specs[0].0 == 0
    requires forall j :: 0 < j < |specs| ==> specs[j - 1].1 == specs[j].0
    requires forall j :: 0 <= j < |specs| ==> specs[j].0 < specs[j].1
    ensures Concat(Cut(line, specs)) ==
      line[..if |line| < specs[|specs| - 1].1 then |line| else specs[|specs| - 1].1]
    decreases |specs|
  {
    var n := |specs| - 1;
    var fs := Cut(line, specs);
    assert Concat(fs) == Concat(fs[..n]) + Slice(line, specs[n].0, specs[n].1);
    SliceJoin(line, specs[n].0, specs[n].1);
    if n == 0 {
      assert fs[..n] == [];
    } else {
      CutTiles(line, specs[..n]);
      assert Cut(line, specs[..n]) == fs[..n];
    }
  }

  /** A slice continues the prefix that ends where the slice begins. */
  lemma SliceJoin(line: string, lo: nat, hi: nat)
    requires lo < hi
    ensures line[..if |line| < lo then |line| else lo] + Slice(line, lo, hi) ==
      line[..if |line| < hi then |line| else hi]
  {
  }

  /**
   * `read_fwf(..., skiprows=[1])`: line 0 is the header, line 1 (the divider) is
   * skipped, every later line is one row. A file without lines has no header.
   */
  function ParseStationTable(lines: seq<string>): (r: Result<seq<Row>, MetadataError>)
    ensures lines == [] <==> r.Failure?
    ensures r.Success? ==> |r.value| == if |lines| < 2 then 0 else |lines| - 2
    ensures r.Success? ==> forall i :: 0 <= i < |r.value| ==> r.value[i] == SliceLine(lines[i + 2])
  {
    if lines == [] then Failure(EmptyData)
    else if |lines| < 2 then Success([])
    else Success(seq(|lines| - 2, i requires 0 <= i < |lines| - 2 => SliceLine(lines[i + 2])))
  }

  predicate InRegion(row: Row, region: string) { row[BUNDESLAND_FIELD] == region }

  /** `df[df["Bundesland"] == bundesland]`: the rows of the region, in table order. */
  function RegionFilter(rows: seq<Row>, region: string): (kept: seq<Row>)
    ensures forall r :: r in kept <==> r in rows && r[BUNDESLAND_FIELD] == region
    ensures IsSubsequence(kept, rows)
    ensures (forall r :: r in rows ==> r[BUNDESLAND_FIELD] != region) ==> kept == []
  {
    Filter(rows, r => InRegion(r, region))
  }

  /**
   * The filter decides row by row: appending a row to the table appends it to
   * the result exactly when its `Bundesland` field is the region.
   */
  lemma RegionFilterAppend(rows: seq<Row>, row: Row, region: string)
    ensures RegionFilter(rows + [row], region) ==
      RegionFilter(rows, region) + (if row[BUNDESLAND_FIELD] == region then [row] else [])
  {
    FilterConcat(rows, [row], r => InRegion(r, region));
  }

  /** `get_station_metadata`: parse the station list, then keep the region's rows. */
  function GetStationMetadata(lines: seq<string>, bundesland: string): (r: Result<seq<Row>, MetadataError>)
    ensures lines == [] <==> r.Failure?
  {
    match ParseStationTable(lines)
    case Failure(e) => Failure(e)
    case Success(rows) => Success(RegionFilter(rows, bundesland))
  }

  /**
   * The station list of a region: exactly the data lines (from line 2 on) whose
   * `Bundesland` field is the region, cut into fields, in file order.
   */
  lemma GetStationMetadataRows(lines: seq<string>, bundesland: string)
    requires lines != []
    ensures GetStationMetadata(lines, bundesland).Success?
    ensures forall row :: row in GetStationMetadata(lines, bundesland).value <==>
      (exists i :: 2 <= i < |lines| && row == SliceLine(lines[i])) && row[BUNDESLAND_FIELD] == bundesland
    ensures IsSubsequence(GetStationMetadata(lines, bundesland).value, ParseStationTable(lines).value)
  {
    var rows := ParseStationTable(lines).value;
    forall row | row in rows ensures exists i :: 2 <= i < |lines| && row == SliceLine(lines[i]) {
      var k :| 0 <= k < |rows| && rows[k] == row;
      assert row == SliceLine(lines[k + 2]);
    }
    forall i | 2 <= i < |lines| ensures SliceLine(lines[i]) in rows {
      assert rows[i - 2] == SliceLine(lines[i]);
    }
  }
}
