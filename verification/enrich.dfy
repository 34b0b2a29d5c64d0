/** Zone enrichment: `add_prefix` and `merge_zone_data`
    (modelling_transform.py, lines 3-10). */
module Enrich {
  import opened Wrappers
  import opened Frame
  import opened Join
  import opened JoinFacts

  /** The zone table's identifier column. */
  const LocationId := "LocationID"

  /** The relabelling `add_prefix` applies: `prefix_name`, except for the
      excluded names. */
  function Prefixer(prefix: string, exclude: set<string>): string -> string {
    c => if c in exclude then c else prefix + "_" + c
  }

  /** The relabelling that undoes `Prefixer`: excluded names stay, and a name
      of the form `prefix_rest` becomes `rest`. */
  function Unprefixer(prefix: string, exclude: set<string>): string -> string {
    n => if n in exclude then n
         else if |prefix| + 1 <= |n| && n[..|prefix| + 1] == prefix + "_" then n[|prefix| + 1..]
         else n
  }

  /** No renamed column lands on an excluded column that the table keeps. */
  predicate NoCollision(cols: seq<string>, prefix: string, exclude: set<string>) {
    forall c :: c in cols && c !in exclude ==> !(prefix + "_" + c in exclude && prefix + "_" + c in cols)
  }

  lemma PrefixCancels(prefix: string, a: string, b: string)
    requires prefix + "_" + a == prefix + "_" + b
    ensures a == b
  {
    assert a == (prefix + "_" + a)[|prefix| + 1..];
    assert b == (prefix + "_" + b)[|prefix| + 1..];
  }

  lemma PrefixerInjective(cols: seq<string>, prefix: string, exclude: set<string>)
    requires NoCollision(cols, prefix, exclude)
    ensures InjectiveOn(Prefixer(prefix, exclude), cols)
  {
    var f := Prefixer(prefix, exclude);
    forall c, d | c in cols && d in cols && c != d ensures f(c) != f(d) {
      if c !in exclude && d !in exclude && f(c) == f(d) {
        PrefixCancels(prefix, c, d);
      }
    }
  }

  /** `add_prefix(df, prefix, exclude_cols)`: every column not excluded is
      renamed `prefix_name`; excluded columns, rows and cells are untouched. */
  function AddPrefix(t: Frame, prefix: string, exclude: set<string>): (r: Frame)
    requires NoCollision(t.columns, prefix, exclude)
    ensures |r.rows| == |t.rows| && |r.columns| == |t.columns|
    ensures forall k :: 0 <= k < |t.columns| && t.columns[k] in exclude ==> r.columns[k] == t.columns[k]
    ensures forall k :: 0 <= k < |t.columns| && t.columns[k] !in exclude ==> r.columns[k] == prefix + "_" + t.columns[k]
    ensures forall i, k :: 0 <= i < |t.rows| && 0 <= k < |t.columns| ==>
              r.columns[k] in r.rows[i] && r.rows[i][r.columns[k]] == t.rows[i][t.columns[k]]
  {
    PrefixerInjective(t.columns, prefix, exclude);
    RenameColumns(t, Prefixer(prefix, exclude))
  }

  lemma UnprefixerUndoes(prefix: string, exclude: set<string>, c: string)
    requires c in exclude || prefix + "_" + c !in exclude
    ensures Unprefixer(prefix, exclude)(Prefixer(prefix, exclude)(c)) == c
  {
    if c !in exclude {
      var n := prefix + "_" + c;
      assert n[..|prefix| + 1] == prefix + "_";
      assert n[|prefix| + 1..] == c;
    }
  }

  /** Stripping the prefix again restores the original table, provided no
      prefixed name is itself an excluded name. */
  lemma AddPrefixRoundTrip(t: Frame, prefix: string, exclude: set<string>)
    requires forall c :: c in t.columns && c !in exclude ==> prefix + "_" + c !in exclude
    ensures NoCollision(t.columns, prefix, exclude)
    ensures InjectiveOn(Unprefixer(prefix, exclude), AddPrefix(t, prefix, exclude).columns)
    ensures RenameColumns(AddPrefix(t, prefix, exclude), Unprefixer(prefix, exclude)) == t
  {
    PrefixerInjective(t.columns, prefix, exclude);
    forall c | c in t.columns
      ensures Unprefixer(prefix, exclude)(Prefixer(prefix, exclude)(c)) == c
    {
      UnprefixerUndoes(prefix, exclude, c);
    }
    RenameColumnsRoundTrip(t, Prefixer(prefix, exclude), Unprefixer(prefix, exclude));
  }

  /** No prefixed name equals `LocationID`, which contains no underscore. */
  lemma ZoneNamesNoCollision(cols: seq<string>, prefix: string)
    ensures forall c :: prefix + "_" + c != LocationId
    ensures NoCollision(cols, prefix, {LocationId})
  {
    forall c ensures prefix + "_" + c != LocationId {
      var n := prefix + "_" + c;
      if |n| == |LocationId| {
        assert n[|prefix|] == '_';
        assert forall k :: 0 <= k < |LocationId| ==> LocationId[k] != '_';
      }
    }
  }

  /** `merge_zone_data(taxi_df, zone_df, location_id_col, prefix)`: prefix the
      zone columns except `LocationID`, left-join on
      `taxi_df[location_id_col] == zone_df.LocationID`, then drop `LocationID`.
      pandas raises `KeyError` when the location column or `LocationID` is
      missing, and when the trips already have a `LocationID` column that is
      not the join key (both copies get suffixed, so the drop finds nothing). */
  function MergeZoneData(trips: Frame, zones: Frame, locCol: string, prefix: string): (r: Result<Frame, Error>)
    ensures r.Success? <==>
              locCol in trips.columns && LocationId in zones.columns && (LocationId !in trips.columns || locCol == LocationId)
    ensures r.Success? ==> LocationId !in r.value.columns && |r.value.rows| >= |trips.rows|
  {
    ZoneNamesNoCollision(zones.columns, prefix);
    var zp := AddPrefix(zones, prefix, {LocationId});
    var joined :- Merge(trips, zp, locCol, LocationId, Left);
    MergeShape(trips, zp, locCol);
    DropColumn(joined, LocationId)
  }

  /** Where `LocationID` ends up after the join, and that no trip row is lost. */
  lemma MergeShape(trips: Frame, zp: Frame, locCol: string)
    requires locCol in trips.columns && LocationId in zp.columns
    ensures var p := Plan(trips, zp, locCol, LocationId, Left);
            && (LocationId in p.Columns() <==> (LocationId !in trips.columns || locCol == LocationId))
            && |Merge(trips, zp, locCol, LocationId, Left).value.rows| >= |trips.rows|
  {
    var p := Plan(trips, zp, locCol, LocationId, Left);
    KeyColumnKept(p);
    LeftJoinKeepsEveryRow(trips, zp, locCol, LocationId);
  }

  /** `merge_zone_data` loses no trip: every trip row reappears in some row
      of the result, with its own cell in every trip column the result
      keeps. */
  lemma MergeZoneDataKeepsTrips(trips: Frame, zones: Frame, locCol: string, prefix: string)
    requires locCol in trips.columns && LocationId in zones.columns
    requires LocationId !in trips.columns || locCol == LocationId
    ensures MergeZoneData(trips, zones, locCol, prefix).Success?
    ensures var r := MergeZoneData(trips, zones, locCol, prefix).value;
            forall i :: 0 <= i < |trips.rows| ==>
              RowKept(r, trips.rows[i], Cols(trips.columns) * Cols(r.columns))
  {
    ZoneNamesNoCollision(zones.columns, prefix);
    var zp := AddPrefix(zones, prefix, {LocationId});
    var p := Plan(trips, zp, locCol, LocationId, Left);
    MergeZoneDataIsDrop(trips, zones, locCol, prefix);
    LeftJoinThenDropKeepsRows(p, LocationId, MergeZoneData(trips, zones, locCol, prefix).value);
  }

  /** `merge_zone_data` is the left join with `LocationID` dropped. */
  lemma MergeZoneDataIsDrop(trips: Frame, zones: Frame, locCol: string, prefix: string)
    requires locCol in trips.columns && LocationId in zones.columns
    requires LocationId !in trips.columns || locCol == LocationId
    ensures NoCollision(zones.columns, prefix, {LocationId})
    ensures var zp := AddPrefix(zones, prefix, {LocationId});
            && Merge(trips, zp, locCol, LocationId, Left).Success?
            && LocationId in Merge(trips, zp, locCol, LocationId, Left).value.columns
            && MergeZoneData(trips, zones, locCol, prefix) == DropColumn(Merge(trips, zp, locCol, LocationId, Left).value, LocationId)
  {
    ZoneNamesNoCollision(zones.columns, prefix);
    var zp := AddPrefix(zones, prefix, {LocationId});
    MergeShape(trips, zp, locCol);
  }

  /** With unique zone identifiers, whatever the trip columns are called:
      one row per trip, in trip order, each with the trip's own cell in every
      trip column the result keeps. */
  lemma MergeZoneDataOneRowPerTrip(trips: Frame, zones: Frame, locCol: string, prefix: string)
    requires locCol in trips.columns && LocationId in zones.columns
    requires LocationId !in trips.columns || locCol == LocationId
    requires UniqueKeys(zones.rows, LocationId)
    ensures MergeZoneData(trips, zones, locCol, prefix).Success?
    ensures var r := MergeZoneData(trips, zones, locCol, prefix).value;
            && |r.rows| == |trips.rows|
            && forall i :: 0 <= i < |trips.rows| ==> AgreesOn(r.rows[i], trips.rows[i], Cols(trips.columns) * Cols(r.columns))
  {
    PrefixedUnique(zones, prefix);
    var zp := AddPrefix(zones, prefix, {LocationId});
    var p := Plan(trips, zp, locCol, LocationId, Left);
    MergeZoneDataIsDrop(trips, zones, locCol, prefix);
    LeftJoinThenDropOneToOne(p, LocationId, MergeZoneData(trips, zones, locCol, prefix).value);
  }

  /** Prefixing keeps the zone identifiers, so unique ones stay unique. */
  lemma PrefixedUnique(zones: Frame, prefix: string)
    requires LocationId in zones.columns && UniqueKeys(zones.rows, LocationId)
    ensures NoCollision(zones.columns, prefix, {LocationId})
    ensures UniqueKeys(AddPrefix(zones, prefix, {LocationId}).rows, LocationId)
  {
    PrefixedZones(zones, prefix);
    var zp := AddPrefix(zones, prefix, {LocationId});
    forall a, b | 0 <= a < b < |zp.rows| ensures zp.rows[a][LocationId] != zp.rows[b][LocationId] {
      assert zones.rows[a][LocationId] != zones.rows[b][LocationId];
    }
  }

  /** The right key column survives a merge unless the left side has a
      different column of the same name. */
  lemma KeyColumnKept(p: Plan)
    requires p.lk in p.left.columns && p.rk in p.right.columns
    ensures p.rk in p.Columns() <==> (p.rk !in p.left.columns || p.lk == p.rk)
  {
    ColsConcat(p.LeftColumns(), p.RightColumns());
    assert Cols(p.LeftColumns()) == Cols(p.left.columns) - p.Overlap();
    assert Cols(p.RightColumns()) == Cols(p.right.columns) - p.RightDrop();
    assert p.rk in p.Columns() <==> p.rk in Cols(p.Columns());
    assert p.rk in p.left.columns <==> p.rk in Cols(p.left.columns);
    assert p.rk in Cols(p.right.columns);
  }

  /** The columns `merge_zone_data` adds: every zone column but `LocationID`,
      in order, as `prefix_name`. */
  function ZoneColumns(cols: seq<string>, prefix: string): seq<string> {
    if |cols| == 0 then []
    else if cols[0] == LocationId then ZoneColumns(cols[1..], prefix)
    else [prefix + "_" + cols[0]] + ZoneColumns(cols[1..], prefix)
  }

  /** The position of the first zone row whose `LocationID` is `key`, if any:
      the lookup a left join performs, written as a plain search. */
  function FindZone(rows: seq<Row>, key: Cell): (r: Option<nat>)
    ensures r.Some? ==> r.value < |rows| && LocationId in rows[r.value] && rows[r.value][LocationId] == key
    ensures r.None? ==> forall j :: 0 <= j < |rows| && LocationId in rows[j] ==> rows[j][LocationId] != key
  {
    if |rows| == 0 then None
    else if LocationId in rows[0] && rows[0][LocationId] == key then Some(0)
    else match FindZone(rows[1..], key)
      case None => None
      case Some(j) => Some(j + 1)
  }

  /** The attribute `c` of the zone whose identifier is `key`; missing when no
      zone has that identifier. */
  function ZoneAttribute(zones: Frame, key: Cell, c: string): Cell
    requires c in zones.columns
  {
    match FindZone(zones.rows, key)
    case None => None
    case Some(j) => zones.rows[j][c]
  }

  /** With unique identifiers the attribute comes from the one zone that has
      the identifier. */
  lemma ZoneAttributeOf(zones: Frame, c: string, j: int)
    requires c in zones.columns && LocationId in zones.columns
    requires UniqueKeys(zones.rows, LocationId)
    requires 0 <= j < |zones.rows|
    ensures ZoneAttribute(zones, zones.rows[j][LocationId], c) == zones.rows[j][c]
  {
    var f := FindZone(zones.rows, zones.rows[j][LocationId]);
    assert f.Some?;
  }

  lemma {:induction false} DropLocationIdFromPrefixed(a: seq<string>, b: seq<string>, prefix: string)
    requires |a| == |b|
    requires forall k :: 0 <= k < |a| ==> b[k] == Prefixer(prefix, {LocationId})(a[k])
    ensures Without(b, {LocationId}) == ZoneColumns(a, prefix)
  {
    if |a| > 0 {
      ZoneNamesNoCollision(a, prefix);
      DropLocationIdFromPrefixed(a[1..], b[1..], prefix);
    }
  }

  /** The zone table after prefixing: identifiers unchanged, attribute `c`
      under `prefix_c`. */
  lemma PrefixedZones(zones: Frame, prefix: string)
    requires LocationId in zones.columns
    ensures NoCollision(zones.columns, prefix, {LocationId})
    ensures var zp := AddPrefix(zones, prefix, {LocationId});
            && LocationId in zp.columns
            && Without(zp.columns, {LocationId}) == ZoneColumns(zones.columns, prefix)
            && (forall c :: c in zp.columns ==> c == LocationId || exists d :: d in zones.columns && c == prefix + "_" + d)
            && (forall j :: 0 <= j < |zones.rows| ==> zp.rows[j][LocationId] == zones.rows[j][LocationId])
            && (forall j, c :: 0 <= j < |zones.rows| && c in zones.columns && c != LocationId ==>
                  prefix + "_" + c in zp.columns && zp.rows[j][prefix + "_" + c] == zones.rows[j][c])
  {
    ZoneNamesNoCollision(zones.columns, prefix);
    var zp := AddPrefix(zones, prefix, {LocationId});
    var k :| 0 <= k < |zones.columns| && zones.columns[k] == LocationId;
    assert zp.columns[k] == LocationId;
    DropLocationIdFromPrefixed(zones.columns, zp.columns, prefix);
    PrefixedZoneNames(zones, prefix);
    PrefixedZoneCells(zones, prefix);
  }

  lemma PrefixedZoneNames(zones: Frame, prefix: string)
    requires NoCollision(zones.columns, prefix, {LocationId})
    ensures var zp := AddPrefix(zones, prefix, {LocationId});
            forall c :: c in zp.columns ==> c == LocationId || exists d :: d in zones.columns && c == prefix + "_" + d
  {
    var zp := AddPrefix(zones, prefix, {LocationId});
    forall c | c in zp.columns ensures c == LocationId || exists d :: d in zones.columns && c == prefix + "_" + d {
      var kc :| 0 <= kc < |zp.columns| && zp.columns[kc] == c;
      assert zones.columns[kc] in zones.columns;
    }
  }

  lemma PrefixedZoneCells(zones: Frame, prefix: string)
    requires NoCollision(zones.columns, prefix, {LocationId})
    ensures var zp := AddPrefix(zones, prefix, {LocationId});
            forall j, c :: 0 <= j < |zones.rows| && c in zones.columns && c != LocationId ==>
              prefix + "_" + c in zp.columns && zp.rows[j][prefix + "_" + c] == zones.rows[j][c]
  {
    var zp := AddPrefix(zones, prefix, {LocationId});
    forall j, c | 0 <= j < |zones.rows| && c in zones.columns && c != LocationId
      ensures prefix + "_" + c in zp.columns && zp.rows[j][prefix + "_" + c] == zones.rows[j][c]
    {
      var kc :| 0 <= kc < |zones.columns| && zones.columns[kc] == c;
      assert zp.columns[kc] == prefix + "_" + c;
    }
  }

  /** Shared setting of the enrichment lemmas below: unique zone identifiers
      and no trip column that the merge would have to suffix. */
  predicate EnrichSetting(trips: Frame, zones: Frame, locCol: string, prefix: string) {
    && locCol in trips.columns && LocationId in zones.columns && LocationId !in trips.columns
    && UniqueKeys(zones.rows, LocationId)
    && (forall c :: c in zones.columns && c != LocationId ==> prefix + "_" + c !in trips.columns)
  }

  /** The join inside `merge_zone_data` in that setting: no name is shared, so
      the trip columns come first, the prefixed zone columns follow, and the
      prefixed zone table still has unique identifiers. */
  lemma ZoneJoinShape(trips: Frame, zones: Frame, locCol: string, prefix: string)
    requires EnrichSetting(trips, zones, locCol, prefix)
    ensures NoCollision(zones.columns, prefix, {LocationId})
    ensures var zp := AddPrefix(zones, prefix, {LocationId});
            var p := Plan(trips, zp, locCol, LocationId, Left);
            && LocationId in zp.columns
            && p.LeftColumns() == trips.columns
            && p.RightColumns() == zp.columns
            && UniqueKeys(zp.rows, LocationId)
  {
    PrefixedZones(zones, prefix);
    var zp := AddPrefix(zones, prefix, {LocationId});
    var p := Plan(trips, zp, locCol, LocationId, Left);
    assert p.Shared() == {};
    forall c | c in zp.columns ensures c !in trips.columns {
      if c != LocationId {
        var d :| d in zones.columns && c == prefix + "_" + d;
        ZoneNamesNoCollision(zones.columns, prefix);
      }
    }
    assert Cols(trips.columns) * Cols(zp.columns) == {};
    assert p.Overlap() == {};
    assert p.RightDrop() == {};
    WithoutNothing(trips.columns, {});
    WithoutNothing(zp.columns, {});
    assert UniqueKeys(zp.rows, LocationId) by {
      forall a, b | 0 <= a < b < |zp.rows| ensures zp.rows[a][LocationId] != zp.rows[b][LocationId] {
        assert zones.rows[a][LocationId] != zones.rows[b][LocationId];
      }
    }
  }

  /** `merge_zone_data` as a left join, when zone identifiers are unique and
      the trip table has no column the merge would have to suffix: one output
      row per trip, in trip order, with the trip's own cells unchanged and,
      under `prefix_c`, attribute `c` of the zone whose `LocationID` equals the
      trip's location column; a trip without such a zone gets missing values
      in every added column. The added columns are exactly the zone table's
      columns other than `LocationID`, prefixed, and `LocationID` is gone. */
  lemma MergeZoneDataEnriches(trips: Frame, zones: Frame, locCol: string, prefix: string)
    requires EnrichSetting(trips, zones, locCol, prefix)
    ensures MergeZoneData(trips, zones, locCol, prefix).Success?
    ensures |MergeZoneData(trips, zones, locCol, prefix).value.rows| == |trips.rows|
    ensures MergeZoneData(trips, zones, locCol, prefix).value.columns == trips.columns + ZoneColumns(zones.columns, prefix)
    ensures var r := MergeZoneData(trips, zones, locCol, prefix).value;
            forall i, c :: 0 <= i < |trips.rows| && c in trips.columns ==>
              i < |r.rows| && c in r.rows[i] && r.rows[i][c] == trips.rows[i][c]
    ensures var r := MergeZoneData(trips, zones, locCol, prefix).value;
            forall i, c :: 0 <= i < |trips.rows| && c in zones.columns && c != LocationId ==>
              && i < |r.rows| && prefix + "_" + c in r.rows[i]
              && r.rows[i][prefix + "_" + c] == ZoneAttribute(zones, trips.rows[i][locCol], c)
  {
    MergeZoneDataColumns(trips, zones, locCol, prefix);
    EnrichedTripCells(trips, zones, locCol, prefix);
    EnrichedZoneCells(trips, zones, locCol, prefix);
  }

  lemma EnrichedTripCells(trips: Frame, zones: Frame, locCol: string, prefix: string)
    requires EnrichSetting(trips, zones, locCol, prefix)
    ensures MergeZoneData(trips, zones, locCol, prefix).Success?
    ensures var r := MergeZoneData(trips, zones, locCol, prefix).value;
            forall i, c :: 0 <= i < |trips.rows| && c in trips.columns ==>
              i < |r.rows| && c in r.rows[i] && r.rows[i][c] == trips.rows[i][c]
  {
    MergeZoneDataColumns(trips, zones, locCol, prefix);
    forall i, c | 0 <= i < |trips.rows| && c in trips.columns
      ensures var r := MergeZoneData(trips, zones, locCol, prefix).value;
              i < |r.rows| && c in r.rows[i] && r.rows[i][c] == trips.rows[i][c]
    {
      EnrichedTripCell(trips, zones, locCol, prefix, i, c);
    }
  }

  lemma EnrichedZoneCells(trips: Frame, zones: Frame, locCol: string, prefix: string)
    requires EnrichSetting(trips, zones, locCol, prefix)
    ensures MergeZoneData(trips, zones, locCol, prefix).Success?
    ensures var r := MergeZoneData(trips, zones, locCol, prefix).value;
            forall i, c :: 0 <= i < |trips.rows| && c in zones.columns && c != LocationId ==>
              && i < |r.rows| && prefix + "_" + c in r.rows[i]
              && r.rows[i][prefix + "_" + c] == ZoneAttribute(zones, trips.rows[i][locCol], c)
  {
    MergeZoneDataColumns(trips, zones, locCol, prefix);
    forall i, c | 0 <= i < |trips.rows| && c in zones.columns && c != LocationId
      ensures var r := MergeZoneData(trips, zones, locCol, prefix).value;
              && i < |r.rows| && prefix + "_" + c in r.rows[i]
              && r.rows[i][prefix + "_" + c] == ZoneAttribute(zones, trips.rows[i][locCol], c)
    {
      EnrichedZoneCell(trips, zones, locCol, prefix, i, c);
    }
  }

  lemma MergeZoneDataColumns(trips: Frame, zones: Frame, locCol: string, prefix: string)
    requires EnrichSetting(trips, zones, locCol, prefix)
    ensures MergeZoneData(trips, zones, locCol, prefix).Success?
    ensures var r := MergeZoneData(trips, zones, locCol, prefix).value;
            && |r.rows| == |trips.rows|
            && r.columns == trips.columns + ZoneColumns(zones.columns, prefix)
  {
    ZoneJoinShape(trips, zones, locCol, prefix);
    PrefixedZones(zones, prefix);
    var zp := AddPrefix(zones, prefix, {LocationId});
    LeftJoinOneToOne(trips, zp, locCol, LocationId);
    var joined := Merge(trips, zp, locCol, LocationId, Left).value;
    assert joined.columns == trips.columns + zp.columns;
    WithoutConcat(trips.columns, zp.columns, {LocationId});
    WithoutNothing(trips.columns, {LocationId});
  }

  /** The joined row of trip `i`, as `LeftJoinOneToOne` describes it. */
  lemma EnrichedRow(trips: Frame, zones: Frame, locCol: string, prefix: string, i: int)
    requires EnrichSetting(trips, zones, locCol, prefix)
    requires 0 <= i < |trips.rows|
    ensures NoCollision(zones.columns, prefix, {LocationId})
    ensures var zp := AddPrefix(zones, prefix, {LocationId});
            var p := Plan(trips, zp, locCol, LocationId, Left);
            && MergeZoneData(trips, zones, locCol, prefix).Success?
            && Merge(trips, zp, locCol, LocationId, Left).Success?
            && i < |MergeZoneData(trips, zones, locCol, prefix).value.rows|
            && i < |Merge(trips, zp, locCol, LocationId, Left).value.rows|
            && forall c :: c in p.Columns() && c != LocationId ==>
                 && c in MergeZoneData(trips, zones, locCol, prefix).value.rows[i]
                 && c in Merge(trips, zp, locCol, LocationId, Left).value.rows[i]
                 && MergeZoneData(trips, zones, locCol, prefix).value.rows[i][c]
                    == Merge(trips, zp, locCol, LocationId, Left).value.rows[i][c]
  {
    ZoneNamesNoCollision(zones.columns, prefix);
    MergeZoneDataColumns(trips, zones, locCol, prefix);
    var zp := AddPrefix(zones, prefix, {LocationId});
    var joined := Merge(trips, zp, locCol, LocationId, Left);
    assert MergeZoneData(trips, zones, locCol, prefix) == DropColumn(joined.value, LocationId);
    DroppedRow(joined.value, LocationId, i);
  }

  /** After dropping `name`, row `i` keeps every other cell. */
  lemma DroppedRow(t: Frame, name: string, i: int)
    requires name in t.columns && 0 <= i < |t.rows|
    ensures var d := DropColumn(t, name).value;
            && i < |d.rows|
            && forall c :: c in t.columns && c != name ==> c in d.rows[i] && c in t.rows[i] && d.rows[i][c] == t.rows[i][c]
  {
    var d := DropColumn(t, name).value;
    forall c | c in t.columns && c != name ensures c in d.rows[i] {
      assert c in Cols(t.columns) - {name};
    }
  }

  lemma EnrichedTripCell(trips: Frame, zones: Frame, locCol: string, prefix: string, i: int, c: string)
    requires EnrichSetting(trips, zones, locCol, prefix)
    requires 0 <= i < |trips.rows| && c in trips.columns
    ensures MergeZoneData(trips, zones, locCol, prefix).Success?
    ensures var r := MergeZoneData(trips, zones, locCol, prefix).value;
            i < |r.rows| && c in r.rows[i] && r.rows[i][c] == trips.rows[i][c]
  {
    ZoneJoinShape(trips, zones, locCol, prefix);
    EnrichedRow(trips, zones, locCol, prefix, i);
    var zp := AddPrefix(zones, prefix, {LocationId});
    var p := Plan(trips, zp, locCol, LocationId, Left);
    var r := MergeZoneData(trips, zones, locCol, prefix).value;
    var joined := Merge(trips, zp, locCol, LocationId, Left).value;
    assert c in p.Columns() && c != LocationId;
    assert r.rows[i][c] == joined.rows[i][c];
    JoinedTripCell(p, i, c);
  }

  /** A left join with unique right keys keeps the left cells of every
      column it does not drop. */
  lemma JoinedTripCell(p: Plan, i: int, c: string)
    requires p.how == Left && p.lk in p.left.columns && p.rk in p.right.columns
    requires UniqueKeys(p.right.rows, p.rk)
    requires 0 <= i < |p.left.rows| && c in p.left.columns && c !in p.Overlap()
    ensures Merge(p.left, p.right, p.lk, p.rk, Left).Success?
    ensures var out := Merge(p.left, p.right, p.lk, p.rk, Left).value.rows;
            i < |out| && c in out[i] && out[i][c] == p.left.rows[i][c]
  {
    LeftJoinOneToOne(p.left, p.right, p.lk, p.rk);
    var l := p.left.rows[i];
    if j :| 0 <= j < |p.right.rows| && p.right.rows[j][p.rk] == l[p.lk] {
      CombineCells(p, l, p.right.rows[j]);
    } else {
      PadCells(p, l);
    }
  }

  /** A left join with unique right keys takes a right-side column from the
      one right row whose key matches. */
  lemma JoinedMatchedCell(p: Plan, i: int, j: int, n: string)
    requires p.how == Left && p.lk in p.left.columns && p.rk in p.right.columns
    requires UniqueKeys(p.right.rows, p.rk)
    requires 0 <= i < |p.left.rows| && 0 <= j < |p.right.rows|
    requires p.right.rows[j][p.rk] == p.left.rows[i][p.lk]
    requires n in p.RightColumns()
    ensures Merge(p.left, p.right, p.lk, p.rk, Left).Success?
    ensures var out := Merge(p.left, p.right, p.lk, p.rk, Left).value.rows;
            i < |out| && n in out[i] && n in p.right.rows[j] && out[i][n] == p.right.rows[j][n]
  {
    LeftJoinOneToOne(p.left, p.right, p.lk, p.rk);
    CombineCells(p, p.left.rows[i], p.right.rows[j]);
  }

  /** A left row without a matching right row gets a missing value in every
      right-side column. */
  lemma JoinedUnmatchedCell(p: Plan, i: int, n: string)
    requires p.how == Left && p.lk in p.left.columns && p.rk in p.right.columns
    requires UniqueKeys(p.right.rows, p.rk)
    requires 0 <= i < |p.left.rows|
    requires forall j :: 0 <= j < |p.right.rows| ==> p.right.rows[j][p.rk] != p.left.rows[i][p.lk]
    requires n in p.RightColumns()
    ensures Merge(p.left, p.right, p.lk, p.rk, Left).Success?
    ensures var out := Merge(p.left, p.right, p.lk, p.rk, Left).value.rows;
            i < |out| && n in out[i] && out[i][n] == None
  {
    LeftJoinOneToOne(p.left, p.right, p.lk, p.rk);
    PadCells(p, p.left.rows[i]);
  }

  lemma EnrichedZoneCell(trips: Frame, zones: Frame, locCol: string, prefix: string, i: int, c: string)
    requires EnrichSetting(trips, zones, locCol, prefix)
    requires 0 <= i < |trips.rows| && c in zones.columns && c != LocationId
    ensures MergeZoneData(trips, zones, locCol, prefix).Success?
    ensures var r := MergeZoneData(trips, zones, locCol, prefix).value;
            && i < |r.rows| && prefix + "_" + c in r.rows[i]
            && r.rows[i][prefix + "_" + c] == ZoneAttribute(zones, trips.rows[i][locCol], c)
  {
    var n := prefix + "_" + c;
    ZoneNamesNoCollision(zones.columns, prefix);
    var zp := AddPrefix(zones, prefix, {LocationId});
    var p := Plan(trips, zp, locCol, LocationId, Left);
    ZoneColumnJoined(trips, zones, locCol, prefix, c);
    EnrichedCell(trips, zones, locCol, prefix, i, n);
    var key := trips.rows[i][locCol];
    match FindZone(zones.rows, key)
    case Some(j) =>
      PrefixedZoneCell(zones, prefix, j, c);
      JoinedMatchedCell(p, i, j, n);
    case None =>
      PrefixedZoneIds(zones, prefix);
      JoinedUnmatchedCell(p, i, n);
  }

  /** Zone attribute `c` reaches the join as a right-side column `prefix_c`. */
  lemma ZoneColumnJoined(trips: Frame, zones: Frame, locCol: string, prefix: string, c: string)
    requires EnrichSetting(trips, zones, locCol, prefix)
    requires c in zones.columns && c != LocationId
    ensures NoCollision(zones.columns, prefix, {LocationId})
    ensures var zp := AddPrefix(zones, prefix, {LocationId});
            var p := Plan(trips, zp, locCol, LocationId, Left);
            && prefix + "_" + c in p.RightColumns() && prefix + "_" + c in p.Columns()
            && prefix + "_" + c != LocationId
            && locCol in trips.columns && LocationId in zp.columns
            && UniqueKeys(zp.rows, LocationId)
  {
    ZoneJoinShape(trips, zones, locCol, prefix);
    PrefixedZones(zones, prefix);
  }

  /** One cell of the merged table is the joined table's cell. */
  lemma EnrichedCell(trips: Frame, zones: Frame, locCol: string, prefix: string, i: int, n: string)
    requires EnrichSetting(trips, zones, locCol, prefix)
    requires 0 <= i < |trips.rows|
    requires NoCollision(zones.columns, prefix, {LocationId})
    requires n in Plan(trips, AddPrefix(zones, prefix, {LocationId}), locCol, LocationId, Left).Columns()
    requires n != LocationId
    ensures var zp := AddPrefix(zones, prefix, {LocationId});
            && MergeZoneData(trips, zones, locCol, prefix).Success?
            && Merge(trips, zp, locCol, LocationId, Left).Success?
            && i < |MergeZoneData(trips, zones, locCol, prefix).value.rows|
            && i < |Merge(trips, zp, locCol, LocationId, Left).value.rows|
            && n in MergeZoneData(trips, zones, locCol, prefix).value.rows[i]
            && n in Merge(trips, zp, locCol, LocationId, Left).value.rows[i]
            && MergeZoneData(trips, zones, locCol, prefix).value.rows[i][n]
               == Merge(trips, zp, locCol, LocationId, Left).value.rows[i][n]
  {
    EnrichedRow(trips, zones, locCol, prefix, i);
  }

  /** Row `j` of the prefixed zone table keeps its identifier and carries
      attribute `c` under `prefix_c`. */
  lemma PrefixedZoneCell(zones: Frame, prefix: string, j: int, c: string)
    requires LocationId in zones.columns && c in zones.columns && c != LocationId
    requires 0 <= j < |zones.rows|
    ensures NoCollision(zones.columns, prefix, {LocationId})
    ensures var zp := AddPrefix(zones, prefix, {LocationId});
            && j < |zp.rows|
            && LocationId in zp.rows[j] && zp.rows[j][LocationId] == zones.rows[j][LocationId]
            && prefix + "_" + c in zp.rows[j] && zp.rows[j][prefix + "_" + c] == zones.rows[j][c]
  {
    PrefixedZones(zones, prefix);
  }

  /** The prefixed zone table keeps every identifier in place. */
  lemma PrefixedZoneIds(zones: Frame, prefix: string)
    requires LocationId in zones.columns
    ensures NoCollision(zones.columns, prefix, {LocationId})
    ensures var zp := AddPrefix(zones, prefix, {LocationId});
            && |zp.rows| == |zones.rows|
            && forall j :: 0 <= j < |zones.rows| ==>
                 LocationId in zp.rows[j] && zp.rows[j][LocationId] == zones.rows[j][LocationId]
  {
    PrefixedZones(zones, prefix);
  }
}
