/** `create_dimension_tables`: the deduplicated trip table with a dense
    `trip_id`, and seven dimension tables, each one row per trip, keyed by
    `<dimension>_id` equal to the row position. */
module Dimensions {
  import opened Wrappers
  import opened Seqs
  import opened Frame
  import opened Lookups

  const TripId := "trip_id"
  const Pickup := "tpep_pickup_datetime"
  const Dropoff := "tpep_dropoff_datetime"
  const PassengerCount := "passenger_count"
  const TripDistance := "trip_distance"
  const RatecodeId := "RatecodeID"
  const PuLocationId := "PULocationID"
  const DoLocationId := "DOLocationID"
  const PaymentType := "payment_type"

  const DatetimeKey := "datetime_id"
  const PassengerCountKey := "passenger_count_id"
  const TripDistanceKey := "trip_distance_id"
  const RateCodeKey := "rate_code_id"
  const PickupLocationKey := "pickup_location_id"
  const DropoffLocationKey := "dropoff_location_id"
  const PaymentTypeKey := "payment_type_id"

  const RateCodeName := "rate_code_name"
  const PaymentTypeName := "payment_type_name"

  /** The trip columns the dimensions read, in the order the source reads them. */
  const SourceColumns: seq<string> :=
    [Pickup, Dropoff, PassengerCount, TripDistance, RatecodeId, PuLocationId, DoLocationId, PaymentType]

  /** The calendar fields taken from a timestamp with `Series.dt`. */
  datatype TimePart = Hour | Day | Weekday | Month | Year

  const TimeParts: seq<TimePart> := [Hour, Day, Weekday, Month, Year]

  /** Which timestamp a calendar column is taken from. */
  datatype Side = Pick | Drop

  /** `pick_hour`, ..., `drop_year`. */
  function PartColumn(side: Side, p: TimePart): string {
    match (side, p)
    case (Pick, Hour) => "pick_hour"
    case (Pick, Day) => "pick_day"
    case (Pick, Weekday) => "pick_weekday"
    case (Pick, Month) => "pick_month"
    case (Pick, Year) => "pick_year"
    case (Drop, Hour) => "drop_hour"
    case (Drop, Day) => "drop_day"
    case (Drop, Weekday) => "drop_weekday"
    case (Drop, Month) => "drop_month"
    case (Drop, Year) => "drop_year"
  }

  function PartColumns(side: Side, parts: seq<TimePart>): (r: seq<string>)
    ensures |r| == |parts| && forall k :: 0 <= k < |parts| ==> r[k] == PartColumn(side, parts[k])
  {
    seq(|parts|, k requires 0 <= k < |parts| => PartColumn(side, parts[k]))
  }

  /** The calendar arithmetic of `Series.dt`, which the model takes as given:
      field `p` of timestamp value `v`. */
  type Calendar = (TimePart, Value) -> Value

  /** `.dt.<part>` of one cell: a missing timestamp gives a missing field. */
  function Part(cal: Calendar, p: TimePart, cell: Cell): (r: Cell)
    ensures r.None? <==> cell.None?
  {
    match cell
    case None => None
    case Some(v) => Some(cal(p, v))
  }

  /** Distinct calendar fields get distinct columns. */
  lemma PartColumnInjective(side: Side, a: TimePart, b: TimePart)
    requires PartColumn(side, a) == PartColumn(side, b)
    ensures a == b
  {
  }

  /** After adding the first part's column, the remaining parts' columns are
      still fresh. */
  lemma FreshParts(cols: seq<string>, before: seq<string>, side: Side, parts: seq<TimePart>)
    requires |parts| > 0 && Distinct(parts) && cols == before + [PartColumn(side, parts[0])]
    requires forall p :: p in parts ==> PartColumn(side, p) !in before
    ensures Distinct(parts[1..])
    ensures forall p :: p in parts[1..] ==> PartColumn(side, p) !in cols
  {
    forall p | p in parts[1..] ensures PartColumn(side, p) !in cols {
      if PartColumn(side, p) == PartColumn(side, parts[0]) {
        PartColumnInjective(side, p, parts[0]);
      }
    }
  }

  lemma AllTimeParts()
    ensures forall p :: p in TimeParts
  {
    forall p: TimePart ensures p in TimeParts {
      match p
      case Hour => assert TimeParts[0] == p;
      case Day => assert TimeParts[1] == p;
      case Weekday => assert TimeParts[2] == p;
      case Month => assert TimeParts[3] == p;
      case Year => assert TimeParts[4] == p;
    }
  }

  /** The `pick_` columns and the timestamps leave room for the `drop_` ones. */
  lemma PickDropDisjoint(cols: seq<string>, stamps: seq<string>)
    requires stamps == [Pickup, Dropoff] && cols == stamps + PartColumns(Pick, TimeParts)
    ensures forall p :: PartColumn(Drop, p) !in cols
    ensures DatetimeKey !in cols + PartColumns(Drop, TimeParts)
  {
    forall p ensures PartColumn(Drop, p) !in cols {
      assert PartColumn(Drop, p)[0] == 'd';
      forall k | 0 <= k < |cols| ensures cols[k] != PartColumn(Drop, p) {
        assert cols[k][0] != 'd';
      }
    }
    var all := cols + PartColumns(Drop, TimeParts);
    forall k | 0 <= k < |all| ensures all[k] != DatetimeKey {
      assert all[k][1] != DatetimeKey[1];
    }
  }

  /** Row `i` of `r` holds, under `side_<part>`, that part of `t`'s `src` cell,
      for every part in `parts`. */
  predicate HasParts(r: Table, t: Table, src: string, side: Side, parts: seq<TimePart>, cal: Calendar) {
    forall i, p :: 0 <= i < |t.rows| && p in parts ==>
      && i < |r.rows| && PartColumn(side, p) in r.rows[i] && src in t.rows[i]
      && r.rows[i][PartColumn(side, p)] == Part(cal, p, t.rows[i][src])
  }

  /** Appends `side_<part>` for each part in order, each computed from column
      `src`; every existing cell stays as it was. */
  function AddParts(t: Frame, src: string, side: Side, parts: seq<TimePart>, cal: Calendar): (r: Frame)
    requires src in t.columns && Distinct(parts)
    requires forall p :: p in parts ==> PartColumn(side, p) !in t.columns
    ensures r.columns == t.columns + PartColumns(side, parts)
    ensures Extends(r, t)
    ensures HasParts(r, t, src, side, parts, cal)
    decreases |parts|
  {
    if |parts| == 0 then
      assert t.columns + PartColumns(side, parts) == t.columns;
      t
    else
      var p0 := parts[0];
      var d := Derive(t, src, PartColumn(side, p0), c => Part(cal, p0, c));
      FreshParts(d.columns, t.columns, side, parts);
      var r := AddParts(d, src, side, parts[1..], cal);
      AddPartsStep(t, d, r, src, side, parts, cal);
      r
  }

  /** One step of `AddParts`: the first part's column, then the rest. */
  lemma AddPartsStep(t: Table, d: Table, r: Table, src: string, side: Side, parts: seq<TimePart>, cal: Calendar)
    requires |parts| > 0 && src in t.columns && PartColumn(side, parts[0]) !in t.columns
    requires d.columns == t.columns + [PartColumn(side, parts[0])]
    requires Extends(d, t)
    requires forall i :: 0 <= i < |t.rows| ==>
               i < |d.rows| && PartColumn(side, parts[0]) in d.rows[i] && src in t.rows[i]
               && d.rows[i][PartColumn(side, parts[0])] == Part(cal, parts[0], t.rows[i][src])
    requires r.columns == d.columns + PartColumns(side, parts[1..])
    requires Extends(r, d) && HasParts(r, d, src, side, parts[1..], cal)
    ensures r.columns == t.columns + PartColumns(side, parts)
    ensures Extends(r, t) && HasParts(r, t, src, side, parts, cal)
  {
    PartColumnsCons(side, parts);
    AppendAssoc(t.columns, [PartColumn(side, parts[0])], PartColumns(side, parts[1..]));
    ExtendsTrans(r, d, t);
    assert PartColumn(side, parts[0]) in d.columns;
    AddPartsCells(t, d, r, src, side, parts, cal);
  }

  lemma AppendAssoc(a: seq<string>, b: seq<string>, c: seq<string>)
    ensures (a + b) + c == a + (b + c)
  {
  }

  lemma PartColumnsCons(side: Side, parts: seq<TimePart>)
    requires |parts| > 0
    ensures PartColumns(side, parts) == [PartColumn(side, parts[0])] + PartColumns(side, parts[1..])
  {
  }

  lemma AddPartsCells(t: Table, d: Table, r: Table, src: string, side: Side, parts: seq<TimePart>, cal: Calendar)
    requires |parts| > 0 && src in t.columns && PartColumn(side, parts[0]) in d.columns
    requires Extends(d, t)
    requires forall i :: 0 <= i < |t.rows| ==>
               i < |d.rows| && PartColumn(side, parts[0]) in d.rows[i] && src in t.rows[i]
               && d.rows[i][PartColumn(side, parts[0])] == Part(cal, parts[0], t.rows[i][src])
    requires Extends(r, d) && HasParts(r, d, src, side, parts[1..], cal)
    ensures HasParts(r, t, src, side, parts, cal)
  {
    forall i, p | 0 <= i < |t.rows| && p in parts
      ensures && i < |r.rows| && PartColumn(side, p) in r.rows[i] && src in t.rows[i]
              && r.rows[i][PartColumn(side, p)] == Part(cal, p, t.rows[i][src])
    {
      if p == parts[0] {
      } else {
        assert p in parts[1..];
      }
    }
  }

  /** The columns of `dim_datetime`, in order. */
  const DatetimeColumns: seq<string> := [
    Pickup, Dropoff,
    "pick_hour", "pick_day", "pick_weekday", "pick_month", "pick_year",
    "drop_hour", "drop_day", "drop_weekday", "drop_month", "drop_year",
    DatetimeKey]

  /** The calendar columns are added in `TimeParts` order, pickup first. */
  lemma DatetimeColumnsInOrder()
    ensures DatetimeColumns == [Pickup, Dropoff] + PartColumns(Pick, TimeParts) + PartColumns(Drop, TimeParts) + [DatetimeKey]
  {
    var built := [Pickup, Dropoff] + PartColumns(Pick, TimeParts) + PartColumns(Drop, TimeParts) + [DatetimeKey];
    assert |built| == |DatetimeColumns|;
    forall k | 0 <= k < |built| ensures built[k] == DatetimeColumns[k] {
    }
  }

  /** `dim_datetime`: both timestamps, their hour, day, weekday, month and year,
      and `datetime_id`. */
  function DatetimeDimension(trips: Frame, cal: Calendar): (r: Result<Frame, Error>)
    ensures r.Success? <==> Pickup in trips.columns && Dropoff in trips.columns
    ensures r.Failure? ==> r.error.column in [Pickup, Dropoff] && r.error.column !in trips.columns
    ensures r.Success? ==>
              && r.value.columns == DatetimeColumns
              && |r.value.rows| == |trips.rows|
              && DenseKey(r.value, DatetimeKey)
    ensures r.Success? ==>
              forall i :: 0 <= i < |trips.rows| ==>
                && i < |r.value.rows| && Pickup in r.value.rows[i] && Dropoff in r.value.rows[i]
                && Pickup in trips.rows[i] && Dropoff in trips.rows[i]
                && r.value.rows[i][Pickup] == trips.rows[i][Pickup]
                && r.value.rows[i][Dropoff] == trips.rows[i][Dropoff]
    ensures r.Success? ==>
              && HasParts(r.value, trips, Pickup, Pick, TimeParts, cal)
              && HasParts(r.value, trips, Dropoff, Drop, TimeParts, cal)
  {
    var s :- Select(trips, [Pickup, Dropoff]);
    AllTimeParts();
    var a := AddParts(s, Pickup, Pick, TimeParts, cal);
    PickDropDisjoint(a.columns, [Pickup, Dropoff]);
    var b := AddParts(a, Dropoff, Drop, TimeParts, cal);
    var r := IndexColumn(b, DatetimeKey);
    IndexColumnExtends(b, DatetimeKey);
    DatetimeColumnsInOrder();
    PartColumnsCover(Pick, a.columns, s.columns);
    PartColumnsCover(Drop, b.columns, a.columns);
    DatetimeCells(trips, s, a, b, r, cal);
    Success(r)
  }

  lemma PartColumnsCover(side: Side, cols: seq<string>, before: seq<string>)
    requires cols == before + PartColumns(side, TimeParts)
    ensures forall p :: PartColumn(side, p) in cols
  {
    forall p ensures PartColumn(side, p) in cols {
      match p
      case Hour => assert cols[|before|] == PartColumn(side, p);
      case Day => assert cols[|before| + 1] == PartColumn(side, p);
      case Weekday => assert cols[|before| + 2] == PartColumn(side, p);
      case Month => assert cols[|before| + 3] == PartColumn(side, p);
      case Year => assert cols[|before| + 4] == PartColumn(side, p);
    }
  }

  /** The cells of `dim_datetime` traced back through its construction. */
  lemma DatetimeCells(trips: Table, s: Table, a: Table, b: Table, r: Table, cal: Calendar)
    requires s.columns == [Pickup, Dropoff] && |s.rows| == |trips.rows|
    requires forall i :: 0 <= i < |trips.rows| ==>
               && Pickup in trips.rows[i] && Dropoff in trips.rows[i] && Pickup in s.rows[i] && Dropoff in s.rows[i]
               && s.rows[i][Pickup] == trips.rows[i][Pickup] && s.rows[i][Dropoff] == trips.rows[i][Dropoff]
    requires forall p :: PartColumn(Pick, p) in a.columns && PartColumn(Drop, p) in b.columns
    requires Extends(a, s) && HasParts(a, s, Pickup, Pick, TimeParts, cal)
    requires Extends(b, a) && HasParts(b, a, Dropoff, Drop, TimeParts, cal)
    requires Extends(r, b)
    requires forall p :: p in TimeParts
    ensures forall i :: 0 <= i < |trips.rows| ==>
              && i < |r.rows| && Pickup in r.rows[i] && Dropoff in r.rows[i]
              && Pickup in trips.rows[i] && Dropoff in trips.rows[i]
              && r.rows[i][Pickup] == trips.rows[i][Pickup]
              && r.rows[i][Dropoff] == trips.rows[i][Dropoff]
    ensures HasParts(r, trips, Pickup, Pick, TimeParts, cal)
    ensures HasParts(r, trips, Dropoff, Drop, TimeParts, cal)
  {
    assert Pickup in s.columns && Dropoff in s.columns;
    forall i, p | 0 <= i < |trips.rows| && p in TimeParts
      ensures && i < |r.rows| && PartColumn(Pick, p) in r.rows[i] && Pickup in trips.rows[i]
              && r.rows[i][PartColumn(Pick, p)] == Part(cal, p, trips.rows[i][Pickup])
    {
    }
    forall i, p | 0 <= i < |trips.rows| && p in TimeParts
      ensures && i < |r.rows| && PartColumn(Drop, p) in r.rows[i] && Dropoff in trips.rows[i]
              && r.rows[i][PartColumn(Drop, p)] == Part(cal, p, trips.rows[i][Dropoff])
    {
      assert a.rows[i][Dropoff] == s.rows[i][Dropoff];
    }
  }

  /** `df[src].copy()` with `key` set to the row position. */
  function Projection(trips: Frame, src: seq<string>, key: string): (r: Result<Frame, Error>)
    requires Distinct(src) && key !in src
    ensures r.Success? <==> forall c :: c in src ==> c in trips.columns
    ensures r.Failure? ==> r.error.column in src && r.error.column !in trips.columns
    ensures r.Success? ==>
              && r.value.columns == src + [key]
              && |r.value.rows| == |trips.rows|
              && DenseKey(r.value, key)
    ensures r.Success? ==>
              forall i, c :: 0 <= i < |trips.rows| && c in src ==>
                i < |r.value.rows| && c in r.value.rows[i] && c in trips.rows[i] && r.value.rows[i][c] == trips.rows[i][c]
  {
    var s :- Select(trips, src);
    Success(IndexColumn(s, key))
  }

  /** A one-column projection keyed by position, with `name` holding the
      column's code mapped through `names`. */
  function LabelledDimension(trips: Frame, src: string, key: string, name: string, names: map<int, string>): (r: Result<Frame, Error>)
    requires src != key && src != name && key != name
    ensures r.Success? <==> src in trips.columns
    ensures r.Failure? ==> r.error == KeyError(src)
    ensures r.Success? ==>
              && r.value.columns == [src, key, name]
              && |r.value.rows| == |trips.rows|
              && DenseKey(r.value, key)
    ensures r.Success? ==>
              forall i :: 0 <= i < |trips.rows| ==>
                && i < |r.value.rows| && src in r.value.rows[i] && name in r.value.rows[i] && src in trips.rows[i]
                && r.value.rows[i][src] == trips.rows[i][src]
                && r.value.rows[i][name] == Label(names, trips.rows[i][src])
  {
    var s :- Projection(trips, [src], key);
    var r := Derive(s, src, name, c => Label(names, c));
    assert forall i :: 0 <= i < |r.rows| ==> r.rows[i][key] == s.rows[i][key];
    Success(r)
  }

  /** `df.drop_duplicates().reset_index(drop=True)` followed by
      `df['trip_id'] = df.index`. */
  function Trips(df: Frame): (r: Frame)
    ensures |r.rows| == |DropDuplicates(df.rows)| && DenseKey(r, TripId)
    ensures r.columns == if TripId in df.columns then df.columns else df.columns + [TripId]
    ensures forall i, c :: 0 <= i < |r.rows| && c in df.columns && c != TripId ==>
              c in r.rows[i] && c in DropDuplicates(df.rows)[i] && r.rows[i][c] == DropDuplicates(df.rows)[i][c]
  {
    var d := DropDuplicateRows(df);
    IndexColumn(d, TripId)
  }

  /** Adding `trip_id` changes nothing about which source columns exist. */
  lemma SourcesPresent(cols: seq<string>, withId: seq<string>)
    requires withId == if TripId in cols then cols else cols + [TripId]
    ensures forall c :: c in SourceColumns ==> (c in withId <==> c in cols)
    ensures (forall c :: c in SourceColumns ==> c in cols) <==>
              && Pickup in cols && Dropoff in cols && PassengerCount in cols && TripDistance in cols
              && RatecodeId in cols && PuLocationId in cols && DoLocationId in cols && PaymentType in cols
  {
    forall c | c in SourceColumns ensures c != TripId {
      assert |c| != |TripId|;
    }
  }

  lemma SourcesListed(cols: seq<string>)
    requires forall c :: c in SourceColumns ==> c in cols
    ensures && Pickup in cols && Dropoff in cols && PassengerCount in cols && TripDistance in cols
            && RatecodeId in cols && PuLocationId in cols && DoLocationId in cols && PaymentType in cols
  {
    assert SourceColumns[0] == Pickup && SourceColumns[1] == Dropoff;
  }

  /** The eight tables `create_dimension_tables` returns. */
  datatype StarTables = StarTables(
    trips: Frame,
    datetime: Frame,
    passengerCount: Frame,
    tripDistance: Frame,
    rateCode: Frame,
    pickupLocation: Frame,
    dropoffLocation: Frame,
    paymentType: Frame)

  /** `create_dimension_tables(df)`; `cal` supplies the calendar fields.
      The tables are built in the source's order, so the `KeyError` names the
      first source column missing in that order. */
  function CreateDimensionTables(df: Frame, cal: Calendar): (r: Result<StarTables, Error>)
    ensures r.Success? <==> forall c :: c in SourceColumns ==> c in df.columns
    ensures r.Failure? ==> r.error.column in SourceColumns && r.error.column !in df.columns
    ensures r.Failure? ==> r.error == KeyError(MissingColumn(SourceColumns, df.columns).value)
    ensures r.Success? ==> r.value.trips == Trips(df)
  {
    var trips := Trips(df);
    SourcesPresent(df.columns, trips.columns);
    match MissingColumn(SourceColumns, df.columns)
    case Some(c) => Failure(KeyError(c))
    case None => Success(BuildStar(trips, cal))
  }

  /** The seven dimensions of a trip table that has every source column. */
  function BuildStar(trips: Frame, cal: Calendar): (s: StarTables)
    requires forall c :: c in SourceColumns ==> c in trips.columns
    ensures s.trips == trips
  {
    SourcesListed(trips.columns);
    StarTables(
      trips,
      DimDatetime(trips, cal),
      DimPassengerCount(trips),
      DimTripDistance(trips),
      DimRateCode(trips),
      DimPickupLocation(trips),
      DimDropoffLocation(trips),
      DimPaymentType(trips))
  }

  function DimDatetime(trips: Frame, cal: Calendar): Frame
    requires Pickup in trips.columns && Dropoff in trips.columns
  {
    DatetimeDimension(trips, cal).value
  }

  function DimPassengerCount(trips: Frame): Frame
    requires PassengerCount in trips.columns
  {
    Projection(trips, [PassengerCount], PassengerCountKey).value
  }

  function DimTripDistance(trips: Frame): Frame
    requires TripDistance in trips.columns
  {
    Projection(trips, [TripDistance], TripDistanceKey).value
  }

  function DimRateCode(trips: Frame): Frame
    requires RatecodeId in trips.columns
  {
    LabelledDimension(trips, RatecodeId, RateCodeKey, RateCodeName, RateCodeTypes).value
  }

  function DimPickupLocation(trips: Frame): Frame
    requires PuLocationId in trips.columns
  {
    Projection(trips, [PuLocationId], PickupLocationKey).value
  }

  function DimDropoffLocation(trips: Frame): Frame
    requires DoLocationId in trips.columns
  {
    Projection(trips, [DoLocationId], DropoffLocationKey).value
  }

  function DimPaymentType(trips: Frame): Frame
    requires PaymentType in trips.columns
  {
    LabelledDimension(trips, PaymentType, PaymentTypeKey, PaymentTypeName, PaymentTypeNames).value
  }
}

/** What `create_dimension_tables` promises about the tables it returns. */
module DimensionFacts {
  import opened Wrappers
  import opened Seqs
  import opened Frame
  import opened Lookups
  import opened Dimensions

  /** `d` has exactly the columns `cols`, `n` rows, and `key` numbers them. */
  predicate Keyed(d: Table, cols: seq<string>, key: string, n: nat) {
    d.columns == cols && key in cols && |d.rows| == n && DenseKey(d, key)
  }

  /** Column `c` of `d` is column `c` of `t`, row for row. */
  predicate Copies(d: Table, t: Table, c: string) {
    forall i :: 0 <= i < |t.rows| ==>
      i < |d.rows| && c in d.rows[i] && c in t.rows[i] && d.rows[i][c] == t.rows[i][c]
  }

  /** Column `name` of `d` is column `src` of `t` mapped through `names`. */
  predicate Labels(d: Table, t: Table, src: string, name: string, names: map<int, string>) {
    forall i :: 0 <= i < |t.rows| ==>
      i < |d.rows| && name in d.rows[i] && src in t.rows[i] && d.rows[i][name] == Label(names, t.rows[i][src])
  }

  /** Every table has one row per trip and a position key. */
  predicate StarShaped(s: StarTables) {
    var n := |s.trips.rows|;
    && TripId in s.trips.columns && DenseKey(s.trips, TripId)
    && Keyed(s.datetime, DatetimeColumns, DatetimeKey, n)
    && Keyed(s.passengerCount, [PassengerCount, PassengerCountKey], PassengerCountKey, n)
    && Keyed(s.tripDistance, [TripDistance, TripDistanceKey], TripDistanceKey, n)
    && Keyed(s.rateCode, [RatecodeId, RateCodeKey, RateCodeName], RateCodeKey, n)
    && Keyed(s.pickupLocation, [PuLocationId, PickupLocationKey], PickupLocationKey, n)
    && Keyed(s.dropoffLocation, [DoLocationId, DropoffLocationKey], DropoffLocationKey, n)
    && Keyed(s.paymentType, [PaymentType, PaymentTypeKey, PaymentTypeName], PaymentTypeKey, n)
  }

  /** Every dimension row carries its trip's cells, labels and calendar fields. */
  predicate StarCells(s: StarTables, cal: Calendar) {
    && Copies(s.datetime, s.trips, Pickup) && Copies(s.datetime, s.trips, Dropoff)
    && HasParts(s.datetime, s.trips, Pickup, Pick, TimeParts, cal)
    && HasParts(s.datetime, s.trips, Dropoff, Drop, TimeParts, cal)
    && Copies(s.passengerCount, s.trips, PassengerCount)
    && Copies(s.tripDistance, s.trips, TripDistance)
    && Copies(s.rateCode, s.trips, RatecodeId)
    && Labels(s.rateCode, s.trips, RatecodeId, RateCodeName, RateCodeTypes)
    && Copies(s.pickupLocation, s.trips, PuLocationId)
    && Copies(s.dropoffLocation, s.trips, DoLocationId)
    && Copies(s.paymentType, s.trips, PaymentType)
    && Labels(s.paymentType, s.trips, PaymentType, PaymentTypeName, PaymentTypeNames)
  }

  /** The trip table is the deduplicated input, rows in first-occurrence order,
      numbered by `trip_id`; each of the seven dimensions has one row per trip,
      exactly the source's columns, and `<dimension>_id` equal to the row
      position. */
  lemma DimensionTablesShape(df: Frame, cal: Calendar)
    requires forall c :: c in SourceColumns ==> c in df.columns
    ensures CreateDimensionTables(df, cal).Success?
    ensures StarShaped(CreateDimensionTables(df, cal).value)
    ensures var s := CreateDimensionTables(df, cal).value;
            && |s.trips.rows| == |DropDuplicates(df.rows)|
            && forall i, c :: 0 <= i < |s.trips.rows| && c in df.columns && c != TripId ==>
                 c in s.trips.rows[i] && c in DropDuplicates(df.rows)[i] && s.trips.rows[i][c] == DropDuplicates(df.rows)[i][c]
  {
    StarOf(df, cal);
    BuildStarShaped(Trips(df), cal);
  }

  /** The dimension rows hold the trip's own cells: the projected columns
      unchanged, the rate code and payment type names looked up from their
      codes, and the calendar fields of both timestamps. */
  lemma DimensionTablesCells(df: Frame, cal: Calendar)
    requires forall c :: c in SourceColumns ==> c in df.columns
    ensures CreateDimensionTables(df, cal).Success?
    ensures StarCells(CreateDimensionTables(df, cal).value, cal)
  {
    StarOf(df, cal);
    BuildStarCells(Trips(df), cal);
  }

  /** With every source column present, the call builds the dimensions of the
      deduplicated trips. */
  lemma StarOf(df: Frame, cal: Calendar)
    requires forall c :: c in SourceColumns ==> c in df.columns
    ensures CreateDimensionTables(df, cal).Success?
    ensures forall c :: c in SourceColumns ==> c in Trips(df).columns
    ensures CreateDimensionTables(df, cal).value == BuildStar(Trips(df), cal)
  {
    SourcesPresent(df.columns, Trips(df).columns);
  }

  lemma BuildStarShaped(trips: Frame, cal: Calendar)
    requires forall c :: c in SourceColumns ==> c in trips.columns
    requires TripId in trips.columns && DenseKey(trips, TripId)
    ensures StarShaped(BuildStar(trips, cal))
  {
    SourcesListed(trips.columns);
    DatetimeFacts(trips, cal);
    ProjectionFacts(trips, PassengerCount, PassengerCountKey);
    ProjectionFacts(trips, TripDistance, TripDistanceKey);
    LabelledFacts(trips, RatecodeId, RateCodeKey, RateCodeName, RateCodeTypes);
    ProjectionFacts(trips, PuLocationId, PickupLocationKey);
    ProjectionFacts(trips, DoLocationId, DropoffLocationKey);
    LabelledFacts(trips, PaymentType, PaymentTypeKey, PaymentTypeName, PaymentTypeNames);
  }

  lemma BuildStarCells(trips: Frame, cal: Calendar)
    requires forall c :: c in SourceColumns ==> c in trips.columns
    ensures StarCells(BuildStar(trips, cal), cal)
  {
    SourcesListed(trips.columns);
    DatetimeFacts(trips, cal);
    ProjectionFacts(trips, PassengerCount, PassengerCountKey);
    ProjectionFacts(trips, TripDistance, TripDistanceKey);
    LabelledFacts(trips, RatecodeId, RateCodeKey, RateCodeName, RateCodeTypes);
    ProjectionFacts(trips, PuLocationId, PickupLocationKey);
    ProjectionFacts(trips, DoLocationId, DropoffLocationKey);
    LabelledFacts(trips, PaymentType, PaymentTypeKey, PaymentTypeName, PaymentTypeNames);
  }

  lemma DatetimeFacts(trips: Frame, cal: Calendar)
    requires Pickup in trips.columns && Dropoff in trips.columns
    ensures var d := DatetimeDimension(trips, cal).value;
            && Keyed(d, DatetimeColumns, DatetimeKey, |trips.rows|)
            && Copies(d, trips, Pickup) && Copies(d, trips, Dropoff)
            && HasParts(d, trips, Pickup, Pick, TimeParts, cal)
            && HasParts(d, trips, Dropoff, Drop, TimeParts, cal)
  {
    assert DatetimeKey in DatetimeColumns by {
      assert DatetimeColumns[12] == DatetimeKey;
    }
  }

  lemma ProjectionFacts(trips: Frame, src: string, key: string)
    requires src in trips.columns && src != key
    ensures var d := Projection(trips, [src], key).value;
            Keyed(d, [src, key], key, |trips.rows|) && Copies(d, trips, src)
  {
  }

  lemma LabelledFacts(trips: Frame, src: string, key: string, name: string, names: map<int, string>)
    requires src in trips.columns && src != key && src != name && key != name
    ensures var d := LabelledDimension(trips, src, key, name, names).value;
            && Keyed(d, [src, key, name], key, |trips.rows|)
            && Copies(d, trips, src) && Labels(d, trips, src, name, names)
  {
  }
}
