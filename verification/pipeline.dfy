/** The two transformation stages chained as the script chains them: the
    dimension tables of a trip table, then the fact table built from them. */
module Pipeline {
  import opened Seqs
  import opened Frame
  import opened Dimensions
  import opened DimensionFacts
  import opened Fact
  import opened FactFacts

  /** A trip table with every column the two stages read, and none of the
      names the dimension keys take, yields a fact table with one row per
      distinct trip, in first-occurrence order: `trip_id` and every dimension
      key equal to the row position, and every carried column equal to the distinct
      trip's own cell. */
  lemma StarSchema(df: Frame, cal: Calendar)
    requires forall c :: c in SourceColumns ==> c in df.columns
    requires forall c :: c in CarriedColumns ==> c in df.columns
    requires forall k :: k in SurrogateKeys ==> k !in df.columns
    ensures CreateDimensionTables(df, cal).Success?
    ensures CreateFactTable(CreateDimensionTables(df, cal).value).Success?
    ensures var f := CreateFactTable(CreateDimensionTables(df, cal).value).value;
            && f.columns == FactColumns
            && |f.rows| == |DropDuplicates(df.rows)|
            && DenseKey(f, TripId)
            && (forall k :: k in SurrogateKeys ==> DenseKey(f, k))
            && forall i, c :: 0 <= i < |f.rows| && c in CarriedColumns ==>
                 c in f.rows[i] && c in DropDuplicates(df.rows)[i] && f.rows[i][c] == DropDuplicates(df.rows)[i][c]
  {
    DimensionTablesShape(df, cal);
    var s := CreateDimensionTables(df, cal).value;
    TripColumns(df, s.trips);
    FactOfTrips(s, DropDuplicates(df.rows));
  }

  /** The trip table of the star keeps the input's carried columns and gains no
      dimension key. */
  lemma TripColumns(df: Frame, trips: Frame)
    requires trips.columns == if TripId in df.columns then df.columns else df.columns + [TripId]
    requires forall c :: c in CarriedColumns ==> c in df.columns
    requires forall k :: k in SurrogateKeys ==> k !in df.columns
    ensures forall c :: c in CarriedColumns ==> c in trips.columns && c != TripId
    ensures forall k :: k in SurrogateKeys ==> k !in trips.columns
  {
    assert forall k :: k in SurrogateKeys ==> k != TripId;
  }

  /** The fact table of a well-shaped star, with the trip cells read from
      `distinct`. */
  lemma FactOfTrips(s: StarTables, distinct: seq<Row>)
    requires StarShaped(s)
    requires forall c :: c in CarriedColumns ==> c in s.trips.columns && c != TripId
    requires forall k :: k in SurrogateKeys ==> k !in s.trips.columns
    requires |s.trips.rows| == |distinct|
    requires forall i, c :: 0 <= i < |s.trips.rows| && c in CarriedColumns ==>
               c in s.trips.rows[i] && c in distinct[i] && s.trips.rows[i][c] == distinct[i][c]
    ensures CreateFactTable(s).Success?
    ensures var f := CreateFactTable(s).value;
            && f.columns == FactColumns
            && |f.rows| == |distinct|
            && DenseKey(f, TripId)
            && (forall k :: k in SurrogateKeys ==> DenseKey(f, k))
            && forall i, c :: 0 <= i < |f.rows| && c in CarriedColumns ==>
                 c in f.rows[i] && c in distinct[i] && f.rows[i][c] == distinct[i][c]
  {
    FactTableOfStar(s);
  }
}
