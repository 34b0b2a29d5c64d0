/** `create_fact_table`: the trip table inner-joined with each dimension on
    `trip_id == <dimension>_id`, then cut down to the seventeen fact columns. */
module Fact {
  import opened Wrappers
  import opened Seqs
  import opened Frame
  import opened Join
  import opened Dimensions

  /** The trip columns the fact table carries over unchanged: the vendor,
      the store-and-forward flag and the seven amounts. */
  const CarriedColumns: seq<string> := [
    "VendorID", "store_and_fwd_flag", "fare_amount", "extra", "mta_tax",
    "tip_amount", "tolls_amount", "improvement_surcharge", "total_amount"]

  /** The seven dimension keys, in fact-table order. */
  const SurrogateKeys: seq<string> := [
    DatetimeKey, PassengerCountKey, TripDistanceKey, RateCodeKey,
    PickupLocationKey, DropoffLocationKey, PaymentTypeKey]

  /** The fact table's columns, in order. */
  const FactColumns: seq<string> := [
    TripId, "VendorID", DatetimeKey, PassengerCountKey, TripDistanceKey, RateCodeKey,
    "store_and_fwd_flag", PickupLocationKey, DropoffLocationKey, PaymentTypeKey, "fare_amount",
    "extra", "mta_tax", "tip_amount", "tolls_amount", "improvement_surcharge", "total_amount"]

  lemma FactColumnsDistinct()
    ensures Distinct(FactColumns)
  {
  }

  /** One merge of `create_fact_table`: a dimension and the key it is joined on. */
  datatype Step = Step(dim: Frame, key: string)

  /** The merges in the order the source performs them: every surrogate key
      is joined on exactly once. */
  function Steps(s: StarTables): (r: seq<Step>)
    ensures |r| == |SurrogateKeys|
    ensures forall k :: k in SurrogateKeys ==> exists j :: 0 <= j < |r| && r[j].key == k
    ensures forall i, j :: 0 <= i < j < |r| ==> r[i].key != r[j].key
  {
    var r := [
      Step(s.passengerCount, PassengerCountKey),
      Step(s.tripDistance, TripDistanceKey),
      Step(s.rateCode, RateCodeKey),
      Step(s.pickupLocation, PickupLocationKey),
      Step(s.dropoffLocation, DropoffLocationKey),
      Step(s.datetime, DatetimeKey),
      Step(s.paymentType, PaymentTypeKey)];
    assert forall k :: k in SurrogateKeys ==> k in [r[0].key, r[1].key, r[2].key, r[3].key, r[4].key, r[5].key, r[6].key];
    r
  }

  /** `t.merge(dim, left_on='trip_id', right_on=key)` for each step in turn.
      A `KeyError` names `trip_id` or one of the steps' keys. */
  function MergeSteps(t: Frame, steps: seq<Step>): (r: Result<Frame, Error>)
    ensures r.Failure? ==> r.error.column == TripId || exists j :: 0 <= j < |steps| && r.error.column == steps[j].key
    decreases |steps|
  {
    if |steps| == 0 then Success(t)
    else
      var prev :- MergeSteps(t, steps[..|steps| - 1]);
      var last := steps[|steps| - 1];
      Merge(prev, last.dim, TripId, last.key, Inner)
  }

  /** `create_fact_table(df, dim_datetime, ...)`: the seven inner merges, then
      `[[...]]` of the fact columns. Every `KeyError` it can raise names a
      fact column: `trip_id`, a dimension key, or a fact column the merged
      table lacks. */
  function CreateFactTable(s: StarTables): (r: Result<Frame, Error>)
    ensures r.Success? ==> r.value.columns == FactColumns
    ensures r.Failure? ==> r.error.column in FactColumns
  {
    var g :- MergeSteps(s.trips, Steps(s));
    FactColumnsDistinct();
    Select(g, FactColumns)
  }
}

/** What `create_fact_table` promises for tables shaped as
    `create_dimension_tables` returns them. */
module FactFacts {
  import opened Wrappers
  import opened Seqs
  import opened Frame
  import opened Join
  import opened JoinFacts
  import opened Dimensions
  import opened DimensionFacts
  import opened Fact

  /** `t` has one row per trip and carries the trip's cells in `keep`. */
  predicate Carries(t: Table, trips: Table, keep: set<string>) {
    && |t.rows| == |trips.rows|
    && (forall c :: c in keep ==> c in t.columns)
    && forall i, c :: 0 <= i < |trips.rows| && c in keep ==>
         i < |t.rows| && c in t.rows[i] && c in trips.rows[i] && t.rows[i][c] == trips.rows[i][c]
  }

  /** Every step's key is a column of `r` numbering its rows. */
  predicate KeyedBy(r: Table, steps: seq<Step>) {
    forall j :: 0 <= j < |steps| ==> steps[j].key in r.columns && DenseKey(r, steps[j].key)
  }

  /** Every column of `r` is a column of `t` or of one of the steps' dimensions. */
  predicate From(r: Table, t: Table, steps: seq<Step>) {
    forall c :: c in r.columns ==> c in t.columns || exists j :: 0 <= j < |steps| && c in steps[j].dim.columns
  }

  /** Each dimension has its key, one row per row of `t`, and the key numbers
      its rows. */
  predicate Aligned(t: Table, steps: seq<Step>) {
    forall j :: 0 <= j < |steps| ==>
      steps[j].key in steps[j].dim.columns && DenseKey(steps[j].dim, steps[j].key) && |steps[j].dim.rows| == |t.rows|
  }

  /** The names line up: no key is a column of `t`, no dimension brings
      `trip_id` or a column of `keep`, and no dimension brings another's key. */
  predicate Separate(t: Table, steps: seq<Step>, keep: set<string>) {
    && (forall j :: 0 <= j < |steps| ==> steps[j].key !in t.columns)
    && (forall j, c :: 0 <= j < |steps| && c in steps[j].dim.columns ==> c !in keep && c != TripId)
    && (forall i, j :: 0 <= i < |steps| && 0 <= j < |steps| && i != j ==> steps[i].key !in steps[j].dim.columns)
  }

  /** A left column the right side does not have survives the merge. */
  lemma KeptLeft(p: Plan, c: string)
    requires c in p.left.columns && c !in p.right.columns
    ensures c in p.LeftColumns() && c in p.Columns()
  {
    assert Cols(p.LeftColumns()) == Cols(p.left.columns) - p.Overlap();
    assert c in Cols(p.left.columns) && c !in Cols(p.right.columns);
    assert c in Cols(p.LeftColumns());
    ColsConcat(p.LeftColumns(), p.RightColumns());
    assert c in Cols(p.Columns());
  }

  /** A right column the left side does not have survives the merge when the
      keys have different names. */
  lemma KeptRight(p: Plan, c: string)
    requires c in p.right.columns && c !in p.left.columns && p.lk != p.rk
    ensures c in p.RightColumns() && c in p.Columns()
  {
    assert Cols(p.RightColumns()) == Cols(p.right.columns) - p.RightDrop();
    assert c in Cols(p.right.columns) && c !in Cols(p.left.columns);
    assert c in Cols(p.RightColumns());
    ColsConcat(p.LeftColumns(), p.RightColumns());
    assert c in Cols(p.Columns());
  }

  /** Every merged column comes from one of the two sides. */
  lemma ColumnsWithin(p: Plan)
    ensures forall c :: c in p.Columns() ==> c in p.left.columns || c in p.right.columns
  {
    assert Cols(p.LeftColumns()) == Cols(p.left.columns) - p.Overlap();
    assert Cols(p.RightColumns()) == Cols(p.right.columns) - p.RightDrop();
    ColsConcat(p.LeftColumns(), p.RightColumns());
    forall c | c in p.Columns() ensures c in p.left.columns || c in p.right.columns {
      assert c in Cols(p.Columns());
    }
  }

  /** Joining on two position keys of the same length keeps every row in
      place and every carried cell the right side does not also have. */
  lemma JoinCarries(p: Plan, trips: Table, keep: set<string>)
    requires p.how == Inner && p.lk in p.left.columns && p.rk in p.right.columns
    requires DenseKey(p.left, p.lk) && DenseKey(p.right, p.rk) && |p.right.rows| == |p.left.rows|
    requires Carries(p.left, trips, keep)
    requires forall c :: c in p.right.columns ==> c !in keep
    ensures Merge(p.left, p.right, p.lk, p.rk, Inner).Success?
    ensures Carries(Merge(p.left, p.right, p.lk, p.rk, Inner).value, trips, keep)
  {
    InnerJoinOnPositions(p.left, p.right, p.lk, p.rk);
    var r := Merge(p.left, p.right, p.lk, p.rk, Inner).value;
    forall c | c in keep ensures c in r.columns {
      KeptLeft(p, c);
    }
    forall i, c | 0 <= i < |trips.rows| && c in keep
      ensures i < |r.rows| && c in r.rows[i] && c in trips.rows[i] && r.rows[i][c] == trips.rows[i][c]
    {
      KeptLeft(p, c);
      CombineCells(p, p.left.rows[i], p.right.rows[i]);
    }
  }

  /** A position key of the left side the right side does not have is still a
      position key after joining on positions. */
  lemma KeyKept(p: Plan, k: string)
    requires p.how == Inner && p.lk in p.left.columns && p.rk in p.right.columns
    requires DenseKey(p.left, p.lk) && DenseKey(p.right, p.rk) && |p.right.rows| == |p.left.rows|
    requires k in p.left.columns && k !in p.right.columns && DenseKey(p.left, k)
    ensures Merge(p.left, p.right, p.lk, p.rk, Inner).Success?
    ensures k in Merge(p.left, p.right, p.lk, p.rk, Inner).value.columns
    ensures DenseKey(Merge(p.left, p.right, p.lk, p.rk, Inner).value, k)
  {
    InnerJoinOnPositions(p.left, p.right, p.lk, p.rk);
    var r := Merge(p.left, p.right, p.lk, p.rk, Inner).value;
    KeptLeft(p, k);
    forall i | 0 <= i < |r.rows| ensures k in r.rows[i] && r.rows[i][k] == Some(Int(i)) {
      CombineCells(p, p.left.rows[i], p.right.rows[i]);
    }
  }

  /** The right key, when the left side has no column of that name, numbers
      the rows of a join on positions. */
  lemma KeyAdded(p: Plan)
    requires p.how == Inner && p.lk in p.left.columns && p.rk in p.right.columns
    requires DenseKey(p.left, p.lk) && DenseKey(p.right, p.rk) && |p.right.rows| == |p.left.rows|
    requires p.rk !in p.left.columns
    ensures Merge(p.left, p.right, p.lk, p.rk, Inner).Success?
    ensures p.rk in Merge(p.left, p.right, p.lk, p.rk, Inner).value.columns
    ensures DenseKey(Merge(p.left, p.right, p.lk, p.rk, Inner).value, p.rk)
  {
    InnerJoinOnPositions(p.left, p.right, p.lk, p.rk);
    var r := Merge(p.left, p.right, p.lk, p.rk, Inner).value;
    KeptRight(p, p.rk);
    forall i | 0 <= i < |r.rows| ensures p.rk in r.rows[i] && r.rows[i][p.rk] == Some(Int(i)) {
      CombineCells(p, p.left.rows[i], p.right.rows[i]);
    }
  }

  /** One more merge keeps the invariant of `MergeStepsCarries`. */
  lemma MergeStepCarries(a: Frame, t: Frame, steps: seq<Step>, keep: set<string>)
    requires |steps| > 0 && Aligned(t, steps) && Separate(t, steps, keep)
    requires Carries(a, t, keep) && TripId in a.columns && DenseKey(a, TripId)
    requires KeyedBy(a, steps[..|steps| - 1]) && From(a, t, steps[..|steps| - 1])
    ensures var last := steps[|steps| - 1];
            Merge(a, last.dim, TripId, last.key, Inner).Success?
    ensures var last := steps[|steps| - 1];
            var r := Merge(a, last.dim, TripId, last.key, Inner).value;
            && Carries(r, t, keep) && TripId in r.columns && DenseKey(r, TripId)
            && KeyedBy(r, steps) && From(r, t, steps)
  {
    var n := |steps|;
    var last := steps[n - 1];
    var p := Plan(a, last.dim, TripId, last.key, Inner);
    assert last.key !in a.columns by {
      if last.key in a.columns {
        var j :| 0 <= j < n - 1 && last.key in steps[..n - 1][j].dim.columns;
      }
    }
    JoinCarries(p, t, keep);
    KeyKept(p, TripId);
    KeyAdded(p);
    var r := Merge(a, last.dim, TripId, last.key, Inner).value;
    forall j | 0 <= j < n ensures steps[j].key in r.columns && DenseKey(r, steps[j].key) {
      if j < n - 1 {
        assert steps[..n - 1][j] == steps[j];
        KeyKept(p, steps[j].key);
      }
    }
    ColumnsWithin(p);
    forall c | c in r.columns
      ensures c in t.columns || exists j :: 0 <= j < n && c in steps[j].dim.columns
    {
      if c in a.columns && c !in t.columns {
        var j :| 0 <= j < n - 1 && c in steps[..n - 1][j].dim.columns;
        assert c in steps[j].dim.columns;
      }
    }
  }

  /** Invariant of the merge chain: after every merge the table still has one
      row per trip in trip order, the trip's cells in `keep`, `trip_id` and
      every key merged so far equal to the row position, and only columns of
      the trip table and the dimensions merged so far. */
  lemma {:induction false} MergeStepsCarries(t: Frame, steps: seq<Step>, keep: set<string>)
    requires TripId in t.columns && DenseKey(t, TripId)
    requires forall c :: c in keep ==> c in t.columns
    requires Aligned(t, steps) && Separate(t, steps, keep)
    ensures MergeSteps(t, steps).Success?
    ensures var r := MergeSteps(t, steps).value;
            && Carries(r, t, keep) && TripId in r.columns && DenseKey(r, TripId)
            && KeyedBy(r, steps) && From(r, t, steps)
    decreases |steps|
  {
    if |steps| == 0 {
      forall i, c | 0 <= i < |t.rows| && c in keep ensures c in t.rows[i] {
        CellExists(t, i, c);
      }
    } else {
      var prev := steps[..|steps| - 1];
      LinedUpPrefix(t, steps, keep);
      MergeStepsCarries(t, prev, keep);
      MergeStepCarries(MergeSteps(t, prev).value, t, steps, keep);
    }
  }

  /** The merges before the last line up as well. */
  lemma LinedUpPrefix(t: Table, steps: seq<Step>, keep: set<string>)
    requires |steps| > 0 && Aligned(t, steps) && Separate(t, steps, keep)
    ensures Aligned(t, steps[..|steps| - 1]) && Separate(t, steps[..|steps| - 1], keep)
  {
    var prev := steps[..|steps| - 1];
    forall j | 0 <= j < |prev| ensures prev[j] == steps[j] { }
    assert Aligned(t, prev);
    forall j | 0 <= j < |prev| ensures prev[j].key !in t.columns {
      assert prev[j] == steps[j];
    }
    forall j, c | 0 <= j < |prev| && c in prev[j].dim.columns ensures c !in keep && c != TripId {
      assert prev[j] == steps[j];
    }
    forall i, j | 0 <= i < |prev| && 0 <= j < |prev| && i != j ensures prev[i].key !in prev[j].dim.columns {
      assert prev[i] == steps[i] && prev[j] == steps[j];
    }
    assert Separate(t, prev, keep);
  }

  /** The columns of the dimension merged at each step, in merge order. */
  const StepColumns: seq<seq<string>> := [
    [PassengerCount, PassengerCountKey],
    [TripDistance, TripDistanceKey],
    [RatecodeId, RateCodeKey, RateCodeName],
    [PuLocationId, PickupLocationKey],
    [DoLocationId, DropoffLocationKey],
    DatetimeColumns,
    [PaymentType, PaymentTypeKey, PaymentTypeName]]

  /** No name is in both lists. */
  predicate Apart(a: seq<string>, b: seq<string>) {
    forall x, y :: 0 <= x < |a| && 0 <= y < |b| ==> a[x] != b[y]
  }

  lemma ApartNotIn(a: seq<string>, b: seq<string>, c: string)
    requires Apart(a, b) && c in a
    ensures c !in b
  {
  }

  /** No dimension column is a carried column or `trip_id`. */
  lemma DimensionsApartFromCarried()
    ensures forall j :: 0 <= j < |StepColumns| ==> Apart(StepColumns[j], CarriedColumns + [TripId])
  {
  }

  /** No two dimensions share a column. */
  lemma DimensionsApart()
    ensures forall i, j :: 0 <= i < j < |StepColumns| ==> Apart(StepColumns[i], StepColumns[j])
  {
  }

  /** The dimensions `create_dimension_tables` returns, in merge order. */
  lemma StepsOfStar(s: StarTables)
    requires StarShaped(s)
    ensures |Steps(s)| == |StepColumns|
    ensures forall j :: 0 <= j < |StepColumns| ==>
              && Steps(s)[j].dim.columns == StepColumns[j] && Steps(s)[j].key in StepColumns[j]
              && Steps(s)[j].key in SurrogateKeys
              && DenseKey(Steps(s)[j].dim, Steps(s)[j].key) && |Steps(s)[j].dim.rows| == |s.trips.rows|
  {
    assert DatetimeColumns[12] == DatetimeKey;
  }

  /** Each dimension of a star is keyed by its merge key, one row per trip. */
  lemma StarAligned(s: StarTables)
    requires StarShaped(s)
    ensures Aligned(s.trips, Steps(s))
  {
    StepsOfStar(s);
  }

  /** The merges of `create_fact_table` on tables shaped as
      `create_dimension_tables` returns them keep the carried columns, `trip_id` and
      the keys apart, provided the trips hold no dimension key of their own. */
  lemma StarSeparate(s: StarTables)
    requires StarShaped(s)
    requires forall k :: k in SurrogateKeys ==> k !in s.trips.columns
    ensures Separate(s.trips, Steps(s), Cols(CarriedColumns))
  {
    var steps := Steps(s);
    StepsOfStar(s);
    DimensionsApartFromCarried();
    DimensionsApart();
    forall j, c | 0 <= j < |steps| && c in steps[j].dim.columns ensures c !in Cols(CarriedColumns) && c != TripId {
      ApartNotIn(StepColumns[j], CarriedColumns + [TripId], c);
    }
    forall i, j | 0 <= i < |steps| && 0 <= j < |steps| && i != j ensures steps[i].key !in steps[j].dim.columns {
      if i < j {
        ApartNotIn(StepColumns[i], StepColumns[j], steps[i].key);
      } else {
        assert Apart(StepColumns[j], StepColumns[i]);
      }
    }
  }

  /** `create_fact_table` on the tables `create_dimension_tables` returns,
      when the trips hold every carried column and no dimension key of their own:
      the seventeen fact columns, one row per trip in trip order, `trip_id`
      and every dimension key equal to the row position, and the trip's
      carried columns unchanged. */
  lemma FactTableOfStar(s: StarTables)
    requires StarShaped(s)
    requires forall c :: c in CarriedColumns ==> c in s.trips.columns
    requires forall k :: k in SurrogateKeys ==> k !in s.trips.columns
    ensures CreateFactTable(s).Success?
    ensures var f := CreateFactTable(s).value;
            && f.columns == FactColumns && |f.rows| == |s.trips.rows|
            && DenseKey(f, TripId)
            && (forall k :: k in SurrogateKeys ==> DenseKey(f, k))
            && forall i, c :: 0 <= i < |f.rows| && c in CarriedColumns ==>
                 c in f.rows[i] && c in s.trips.rows[i] && f.rows[i][c] == s.trips.rows[i][c]
  {
    StarAligned(s);
    StarSeparate(s);
    MergeStepsCarries(s.trips, Steps(s), Cols(CarriedColumns));
    var g := MergeSteps(s.trips, Steps(s)).value;
    SurrogateKeysMerged(g, s);
    assert CreateFactTable(s) == (FactColumnsDistinct(); Select(g, FactColumns));
    SelectFactColumns(g, s.trips);
  }

  /** Every dimension key the merges bring numbers the rows. */
  lemma SurrogateKeysMerged(g: Table, s: StarTables)
    requires KeyedBy(g, Steps(s))
    ensures forall k :: k in SurrogateKeys ==> k in g.columns && DenseKey(g, k)
  {
    var st := Steps(s);
    assert st[0].key == PassengerCountKey && st[1].key == TripDistanceKey && st[2].key == RateCodeKey;
    assert st[3].key == PickupLocationKey && st[4].key == DropoffLocationKey;
    assert st[5].key == DatetimeKey && st[6].key == PaymentTypeKey;
  }

  /** The final `[[...]]` of a merged table that holds the carried columns and is
      numbered by `trip_id` and every dimension key. */
  lemma SelectFactColumns(g: Frame, trips: Table)
    requires Carries(g, trips, Cols(CarriedColumns)) && TripId in g.columns && DenseKey(g, TripId)
    requires forall k :: k in SurrogateKeys ==> k in g.columns && DenseKey(g, k)
    ensures (FactColumnsDistinct(); Select(g, FactColumns)).Success?
    ensures var f := (FactColumnsDistinct(); Select(g, FactColumns)).value;
            && f.columns == FactColumns && |f.rows| == |trips.rows|
            && DenseKey(f, TripId)
            && (forall k :: k in SurrogateKeys ==> DenseKey(f, k))
            && forall i, c :: 0 <= i < |f.rows| && c in CarriedColumns ==>
                 c in f.rows[i] && c in trips.rows[i] && f.rows[i][c] == trips.rows[i][c]
  {
    FactColumnsDistinct();
    FactColumnsFound(g, trips);
    var f := Select(g, FactColumns).value;
    forall i, c | 0 <= i < |f.rows| && c in FactColumns ensures c in f.rows[i] {
      CellExists(f, i, c);
    }
    forall c | c in CarriedColumns ensures c in FactColumns && c in Cols(CarriedColumns) {
    }
  }

  lemma FactColumnsFound(g: Table, trips: Table)
    requires Carries(g, trips, Cols(CarriedColumns)) && TripId in g.columns
    requires forall k :: k in SurrogateKeys ==> k in g.columns
    ensures forall c :: c in FactColumns ==> c in g.columns
  {
    forall c | c in FactColumns ensures c in g.columns {
      if c in CarriedColumns {
        assert c in Cols(CarriedColumns);
      }
    }
  }
}
