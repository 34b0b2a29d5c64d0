/** `DataFrame.merge(right, how=..., left_on=lk, right_on=rk)`: for each left
    row in order, one output row per matching right row in right order. A left
    join pads a left row that has no match with missing values; an inner join
    drops it. As in pandas, missing keys match missing keys. A column name that
    occurs on both sides (other than a key shared by name) is renamed with a
    `_x`/`_y` suffix by pandas; the model drops such columns, so they are not
    reachable under their plain name, exactly as in pandas. */
module Join {
  import opened Wrappers
  import opened Seqs
  import opened Frame

  datatype How = Left | Inner

  /** The right rows whose key column holds `key`, in order. */
  function Matching(rows: seq<Row>, rk: string, key: Cell): (ms: seq<Row>)
    ensures forall k :: 0 <= k < |ms| ==> ms[k] in rows && rk in ms[k] && ms[k][rk] == key
    ensures forall j :: 0 <= j < |rows| && rk in rows[j] && rows[j][rk] == key ==> rows[j] in ms
  {
    if |rows| == 0 then []
    else
      var init := Matching(rows[..|rows| - 1], rk, key);
      var last := rows[|rows| - 1];
      assert rows == rows[..|rows| - 1] + [last];
      if rk in last && last[rk] == key then init + [last] else init
  }

  /** No two rows share a value in column `k`. */
  predicate UniqueKeys(rows: seq<Row>, k: string) {
    forall i, j :: 0 <= i < j < |rows| && k in rows[i] && k in rows[j] ==> rows[i][k] != rows[j][k]
  }

  /** A merge of `left` with `right` on `left[lk] == right[rk]`. */
  datatype Plan = Plan(left: Frame, right: Frame, lk: string, rk: string, how: How) {

    /** A key column with the same name on both sides appears once, from the left. */
    function Shared(): set<string> {
      if lk == rk then {lk} else {}
    }

    /** Names on both sides that pandas would suffix. */
    function Overlap(): set<string> {
      (Cols(left.columns) * Cols(right.columns)) - Shared()
    }

    function RightDrop(): set<string> {
      Overlap() + Shared()
    }

    function LeftColumns(): seq<string> {
      Without(left.columns, Overlap())
    }

    function RightColumns(): seq<string> {
      Without(right.columns, RightDrop())
    }

    function Columns(): seq<string> {
      LeftColumns() + RightColumns()
    }

    /** The output row for a left row and one matching right row. */
    function Combine(l: Row, m: Row): Row {
      (l - Overlap()) + (m - RightDrop())
    }

    /** The output row of a left join for a left row without a match. */
    function Pad(l: Row): Row {
      (l - Overlap()) + NullRow(Cols(RightColumns()))
    }

    /** The output rows produced by one left row. */
    function RowsFor(l: Row): seq<Row>
      requires lk in l
    {
      var ms := Matching(right.rows, rk, l[lk]);
      if |ms| == 0 then (if how == Left then [Pad(l)] else [])
      else seq(|ms|, k requires 0 <= k < |ms| => Combine(l, ms[k]))
    }

    /** The rows each left row yields, in left order. */
    function Parts(): (r: seq<seq<Row>>)
      requires lk in left.columns
      ensures |r| == |left.rows|
      ensures forall i :: 0 <= i < |left.rows| ==> lk in left.rows[i] && r[i] == RowsFor(left.rows[i])
    {
      seq(|left.rows|, i requires 0 <= i < |left.rows| && lk in left.rows[i] => RowsFor(left.rows[i]))
    }

    /** The output rows: each left row's rows, left rows in order. */
    function Rows(): seq<Row>
      requires lk in left.columns
    {
      Concat(Parts())
    }
  }

  /** Every row has exactly the columns `keys`. */
  predicate AllKeyed(rows: seq<Row>, keys: set<string>) {
    forall k :: 0 <= k < |rows| ==> rows[k].Keys == keys
  }

  /** Output columns are duplicate-free and every output row has exactly them. */
  lemma PlanWellFormed(p: Plan)
    requires p.lk in p.left.columns
    ensures Distinct(p.Columns())
    ensures AllKeyed(p.Rows(), Cols(p.Columns()))
  {
    DistinctConcat(p.LeftColumns(), p.RightColumns());
    var parts := p.Parts();
    forall k | 0 <= k < |p.Rows()| ensures p.Rows()[k].Keys == Cols(p.Columns()) {
      ConcatMember(parts, k);
      var i :| 0 <= i < |parts| && p.Rows()[k] in parts[i];
      RowsForKeys(p, p.left.rows[i]);
    }
  }

  /** Every row one left row yields has exactly the output columns. */
  lemma RowsForKeys(p: Plan, l: Row)
    requires p.lk in l && l.Keys == Cols(p.left.columns)
    ensures AllKeyed(p.RowsFor(l), Cols(p.Columns()))
  {
    ColsConcat(p.LeftColumns(), p.RightColumns());
    var ms := Matching(p.right.rows, p.rk, l[p.lk]);
    var out := p.RowsFor(l);
    forall k | 0 <= k < |out| ensures out[k].Keys == Cols(p.Columns()) {
      if |ms| > 0 {
        assert ms[k] in p.right.rows;
        assert ms[k].Keys == Cols(p.right.columns);
      }
    }
  }

  /** The merge. `KeyError` when a key column is missing on its side; pandas
      looks the right key up before the left one, so when both are missing
      the error names the right key. */
  function Merge(left: Frame, right: Frame, lk: string, rk: string, how: How): (r: Result<Frame, Error>)
    ensures r.Success? <==> lk in left.columns && rk in right.columns
    ensures r.Failure? ==> r.error == (if rk !in right.columns then KeyError(rk) else KeyError(lk))
    ensures r.Success? ==> r.value.columns == Plan(left, right, lk, rk, how).Columns()
    ensures r.Success? ==> r.value.rows == Plan(left, right, lk, rk, how).Rows()
  {
    if rk !in right.columns then Failure(KeyError(rk))
    else if lk !in left.columns then Failure(KeyError(lk))
    else
      var p := Plan(left, right, lk, rk, how);
      PlanWellFormed(p);
      Success(Table(p.Columns(), p.Rows()))
  }
}

module JoinFacts {
  import opened Wrappers
  import opened Seqs
  import opened Frame
  import opened Join

  /** With unique right keys, a key matches exactly the one row that holds it. */
  lemma {:induction false} MatchingUnique(rows: seq<Row>, rk: string, j: int)
    requires UniqueKeys(rows, rk)
    requires 0 <= j < |rows| && rk in rows[j]
    ensures Matching(rows, rk, rows[j][rk]) == [rows[j]]
  {
    var key := rows[j][rk];
    var init := rows[..|rows| - 1];
    var last := rows[|rows| - 1];
    assert UniqueKeys(init, rk);
    assert rows == init + [last];
    if j == |rows| - 1 {
      MatchingNone(init, rk, key);
    } else {
      MatchingUnique(init, rk, j);
      assert init[j] == rows[j];
    }
  }

  /** A key no row holds matches nothing. */
  lemma MatchingNone(rows: seq<Row>, rk: string, key: Cell)
    requires forall j :: 0 <= j < |rows| && rk in rows[j] ==> rows[j][rk] != key
    ensures Matching(rows, rk, key) == []
  {
    var ms := Matching(rows, rk, key);
    if |ms| > 0 {
      assert ms[0] in rows;
    }
  }

  /** A combined row carries the left row's kept columns and the right row's
      kept columns. */
  lemma CombineCells(p: Plan, l: Row, m: Row)
    requires l.Keys == Cols(p.left.columns) && m.Keys == Cols(p.right.columns)
    ensures forall c :: c in p.LeftColumns() ==> c in p.Combine(l, m) && p.Combine(l, m)[c] == l[c]
    ensures forall c :: c in p.RightColumns() ==> c in p.Combine(l, m) && p.Combine(l, m)[c] == m[c]
  {
    assert Cols(p.LeftColumns()) == Cols(p.left.columns) - p.Overlap();
    assert Cols(p.RightColumns()) == Cols(p.right.columns) - p.RightDrop();
  }

  /** A padded row carries the left row's kept columns and a missing value in
      every column the right side contributes. */
  lemma PadCells(p: Plan, l: Row)
    requires l.Keys == Cols(p.left.columns)
    ensures forall c :: c in p.LeftColumns() ==> c in p.Pad(l) && p.Pad(l)[c] == l[c]
    ensures forall c :: c in p.RightColumns() ==> c in p.Pad(l) && p.Pad(l)[c] == None
  {
    assert Cols(p.LeftColumns()) == Cols(p.left.columns) - p.Overlap();
    assert Cols(p.RightColumns()) == Cols(p.right.columns) - p.RightDrop();
  }

  /** A left join never loses a left row, whatever the right side holds. */
  lemma LeftJoinKeepsEveryRow(left: Frame, right: Frame, lk: string, rk: string)
    requires lk in left.columns && rk in right.columns
    ensures Merge(left, right, lk, rk, Left).Success?
    ensures |Merge(left, right, lk, rk, Left).value.rows| >= |left.rows|
  {
    var p := Plan(left, right, lk, rk, Left);
    ConcatLength(p.Parts());
  }

  /** A left join loses no left row: for every left row some output row
      holds its cells in every column the join keeps from the left. */
  lemma LeftJoinKeepsEveryLeftRow(left: Frame, right: Frame, lk: string, rk: string)
    requires lk in left.columns && rk in right.columns
    ensures Merge(left, right, lk, rk, Left).Success?
    ensures var p := Plan(left, right, lk, rk, Left);
            forall i :: 0 <= i < |left.rows| ==> RowKept(Merge(left, right, lk, rk, Left).value, left.rows[i], Cols(p.LeftColumns()))
  {
    var p := Plan(left, right, lk, rk, Left);
    var out := Merge(left, right, lk, rk, Left).value;
    forall i | 0 <= i < |left.rows| ensures RowKept(out, left.rows[i], Cols(p.LeftColumns())) {
      var l := left.rows[i];
      RowsForKeepsLeft(p, l);
      ConcatContains(p.Parts(), i, p.RowsFor(l)[0]);
      var k :| 0 <= k < |p.Rows()| && p.Rows()[k] == p.RowsFor(l)[0];
      assert out.rows[k] == p.RowsFor(l)[0];
    }
  }

  /** A left join followed by dropping a column still holds every left row:
      some row agrees with it on every left column that is left. */
  lemma LeftJoinThenDropKeepsRows(p: Plan, name: string, r: Frame)
    requires p.how == Left && p.lk in p.left.columns && p.rk in p.right.columns
    requires name in Merge(p.left, p.right, p.lk, p.rk, Left).value.columns
    requires r == DropColumn(Merge(p.left, p.right, p.lk, p.rk, Left).value, name).value
    ensures forall i :: 0 <= i < |p.left.rows| ==> RowKept(r, p.left.rows[i], Cols(p.left.columns) * Cols(r.columns))
  {
    var joined := Merge(p.left, p.right, p.lk, p.rk, Left).value;
    LeftColumnsCover(p);
    ColsConcat(p.LeftColumns(), p.RightColumns());
    assert Cols(p.left.columns) * Cols(r.columns) <= Cols(p.LeftColumns()) - {name};
    LeftJoinKeepsEveryLeftRow(p.left, p.right, p.lk, p.rk);
    DroppedKeepsRows(joined, name, p.left.rows, Cols(p.LeftColumns()), Cols(p.left.columns) * Cols(r.columns));
  }

  /** Against unique right keys, row i of a left join holds left row i's cell
      in every column the join keeps from the left side. */
  lemma LeftJoinOneToOneKeepsLeft(left: Frame, right: Frame, lk: string, rk: string)
    requires lk in left.columns && rk in right.columns
    requires UniqueKeys(right.rows, rk)
    ensures Merge(left, right, lk, rk, Left).Success?
    ensures var p := Plan(left, right, lk, rk, Left);
            var out := Merge(left, right, lk, rk, Left).value;
            && |out.rows| == |left.rows|
            && forall i :: 0 <= i < |left.rows| ==> AgreesOn(out.rows[i], left.rows[i], Cols(p.LeftColumns()))
  {
    var p := Plan(left, right, lk, rk, Left);
    LeftJoinOneToOne(left, right, lk, rk);
    var out := Merge(left, right, lk, rk, Left).value;
    forall i | 0 <= i < |left.rows| ensures AgreesOn(out.rows[i], left.rows[i], Cols(p.LeftColumns())) {
      var l := left.rows[i];
      if j :| 0 <= j < |right.rows| && right.rows[j][rk] == l[lk] {
        CombineCells(p, l, right.rows[j]);
      } else {
        PadCells(p, l);
      }
    }
  }

  /** A left join against unique right keys followed by dropping a column
      keeps one row per left row, in left order, each agreeing with its left
      row on every left column that is left. */
  lemma LeftJoinThenDropOneToOne(p: Plan, name: string, r: Frame)
    requires p.how == Left && p.lk in p.left.columns && p.rk in p.right.columns
    requires UniqueKeys(p.right.rows, p.rk)
    requires name in Merge(p.left, p.right, p.lk, p.rk, Left).value.columns
    requires r == DropColumn(Merge(p.left, p.right, p.lk, p.rk, Left).value, name).value
    ensures |r.rows| == |p.left.rows|
    ensures forall i :: 0 <= i < |p.left.rows| ==> AgreesOn(r.rows[i], p.left.rows[i], Cols(p.left.columns) * Cols(r.columns))
  {
    var joined := Merge(p.left, p.right, p.lk, p.rk, Left).value;
    var want := Cols(p.left.columns) * Cols(r.columns);
    LeftColumnsCover(p);
    ColsConcat(p.LeftColumns(), p.RightColumns());
    assert want <= Cols(p.LeftColumns()) - {name};
    LeftJoinOneToOneKeepsLeft(p.left, p.right, p.lk, p.rk);
    forall i | 0 <= i < |p.left.rows| ensures AgreesOn(r.rows[i], p.left.rows[i], want) {
      DroppedAgrees(joined, name, i, p.left.rows[i], Cols(p.LeftColumns()));
      AgreesOnFewer(r.rows[i], p.left.rows[i], Cols(p.LeftColumns()) - {name}, want);
    }
  }

  /** The first row a left join makes of a left row carries its left cells. */
  lemma RowsForKeepsLeft(p: Plan, l: Row)
    requires p.how == Left && p.lk in l && l.Keys == Cols(p.left.columns)
    ensures |p.RowsFor(l)| > 0 && AgreesOn(p.RowsFor(l)[0], l, Cols(p.LeftColumns()))
  {
    var ms := Matching(p.right.rows, p.rk, l[p.lk]);
    if |ms| == 0 {
      PadCells(p, l);
    } else {
      assert ms[0] in p.right.rows;
      CombineCells(p, l, ms[0]);
    }
  }

  /** A left column that survives the merge comes from the left side. */
  lemma LeftColumnsCover(p: Plan)
    ensures Cols(p.left.columns) * Cols(p.Columns()) <= Cols(p.LeftColumns())
  {
    ColsConcat(p.LeftColumns(), p.RightColumns());
  }

  /** A left row whose key some right row holds combines with that row. */
  lemma LeftRowMatched(p: Plan, i: int, j: int)
    requires p.lk in p.left.columns && p.rk in p.right.columns
    requires UniqueKeys(p.right.rows, p.rk)
    requires 0 <= i < |p.left.rows| && 0 <= j < |p.right.rows|
    requires p.right.rows[j][p.rk] == p.left.rows[i][p.lk]
    ensures p.RowsFor(p.left.rows[i]) == [p.Combine(p.left.rows[i], p.right.rows[j])]
  {
    MatchingUnique(p.right.rows, p.rk, j);
  }

  /** A left row whose key no right row holds is padded by a left join. */
  lemma LeftRowUnmatched(p: Plan, i: int)
    requires p.how == Left && p.lk in p.left.columns && p.rk in p.right.columns
    requires 0 <= i < |p.left.rows|
    requires forall j :: 0 <= j < |p.right.rows| ==> p.right.rows[j][p.rk] != p.left.rows[i][p.lk]
    ensures p.RowsFor(p.left.rows[i]) == [p.Pad(p.left.rows[i])]
  {
    MatchingNone(p.right.rows, p.rk, p.left.rows[i][p.lk]);
  }

  /** A left join against a right side with unique keys: one output row per
      left row, in left order; the row is combined with the right row that
      holds its key, or padded with missing values when no right row does. */
  lemma LeftJoinOneToOne(left: Frame, right: Frame, lk: string, rk: string)
    requires lk in left.columns && rk in right.columns
    requires UniqueKeys(right.rows, rk)
    ensures Merge(left, right, lk, rk, Left).Success?
    ensures var p := Plan(left, right, lk, rk, Left);
            var out := Merge(left, right, lk, rk, Left).value.rows;
            && |out| == |left.rows|
            && (forall i, j :: 0 <= i < |left.rows| && 0 <= j < |right.rows| && right.rows[j][rk] == left.rows[i][lk] ==>
                  out[i] == p.Combine(left.rows[i], right.rows[j]))
            && (forall i :: 0 <= i < |left.rows| && (forall j :: 0 <= j < |right.rows| ==> right.rows[j][rk] != left.rows[i][lk]) ==>
                  out[i] == p.Pad(left.rows[i]))
  {
    var p := Plan(left, right, lk, rk, Left);
    forall i | 0 <= i < |left.rows|
      ensures lk in left.rows[i] && |p.RowsFor(left.rows[i])| == 1
    {
      if j :| 0 <= j < |right.rows| && right.rows[j][rk] == left.rows[i][lk] {
        LeftRowMatched(p, i, j);
      } else {
        LeftRowUnmatched(p, i);
      }
    }
    var heads := seq(|left.rows|, i requires 0 <= i < |left.rows| && lk in left.rows[i] && |p.RowsFor(left.rows[i])| == 1 =>
                       p.RowsFor(left.rows[i])[0]);
    ConcatSingles(p.Parts(), heads);
    forall i, j | 0 <= i < |left.rows| && 0 <= j < |right.rows| && right.rows[j][rk] == left.rows[i][lk]
      ensures p.Rows()[i] == p.Combine(left.rows[i], right.rows[j])
    {
      LeftRowMatched(p, i, j);
    }
    forall i | 0 <= i < |left.rows| && (forall j :: 0 <= j < |right.rows| ==> right.rows[j][rk] != left.rows[i][lk])
      ensures p.Rows()[i] == p.Pad(left.rows[i])
    {
      LeftRowUnmatched(p, i);
    }
  }

  /** An inner join of two tables on columns that hold each row's position:
      row `i` of the output combines row `i` of each side, and a left row whose
      position the right side does not reach is dropped. */
  lemma InnerJoinOnPositions(left: Frame, right: Frame, lk: string, rk: string)
    requires lk in left.columns && rk in right.columns
    requires DenseKey(left, lk) && DenseKey(right, rk)
    ensures Merge(left, right, lk, rk, Inner).Success?
    ensures var out := Merge(left, right, lk, rk, Inner).value.rows;
            && |out| == (if |left.rows| <= |right.rows| then |left.rows| else |right.rows|)
            && forall i :: 0 <= i < |out| ==>
                 out[i] == Plan(left, right, lk, rk, Inner).Combine(left.rows[i], right.rows[i])
  {
    InnerRowsOnPositions(Plan(left, right, lk, rk, Inner));
  }

  /** Position keys are unique keys. */
  lemma DenseKeyUnique(t: Table, k: string)
    requires DenseKey(t, k)
    ensures UniqueKeys(t.rows, k)
  {
    forall a, b | 0 <= a < b < |t.rows| ensures t.rows[a][k] != t.rows[b][k] {
      assert t.rows[a][k] == Some(Int(a));
    }
  }

  /** What an inner join on position keys makes of left row `i`. */
  lemma InnerRowFor(p: Plan, i: int)
    requires p.how == Inner && p.lk in p.left.columns && p.rk in p.right.columns
    requires DenseKey(p.left, p.lk) && DenseKey(p.right, p.rk)
    requires 0 <= i < |p.left.rows|
    ensures p.lk in p.left.rows[i]
    ensures i < |p.right.rows| ==> p.RowsFor(p.left.rows[i]) == [p.Combine(p.left.rows[i], p.right.rows[i])]
    ensures |p.right.rows| <= i ==> p.RowsFor(p.left.rows[i]) == []
  {
    assert p.left.rows[i][p.lk] == Some(Int(i));
    DenseKeyUnique(p.right, p.rk);
    if i < |p.right.rows| {
      MatchingUnique(p.right.rows, p.rk, i);
    } else {
      MatchingNone(p.right.rows, p.rk, Some(Int(i)));
    }
  }

  /** A left row whose position the right side does not reach yields nothing. */
  lemma InnerRowUnmatched(p: Plan, i: int)
    requires p.how == Inner && p.lk in p.left.columns && p.rk in p.right.columns
    requires DenseKey(p.left, p.lk) && DenseKey(p.right, p.rk)
    requires |p.right.rows| <= i < |p.left.rows|
    ensures p.lk in p.left.rows[i] && p.RowsFor(p.left.rows[i]) == []
  {
    InnerRowFor(p, i);
  }

  lemma InnerRowsOnPositions(p: Plan)
    requires p.how == Inner && p.lk in p.left.columns && p.rk in p.right.columns
    requires DenseKey(p.left, p.lk) && DenseKey(p.right, p.rk)
    ensures |p.Rows()| == (if |p.left.rows| <= |p.right.rows| then |p.left.rows| else |p.right.rows|)
    ensures forall i :: 0 <= i < |p.Rows()| ==> p.Rows()[i] == p.Combine(p.left.rows[i], p.right.rows[i])
  {
    var n := |p.left.rows|;
    var m := if n <= |p.right.rows| then n else |p.right.rows|;
    InnerTail(p, m);
    var heads := seq(m, i requires 0 <= i < m => p.Combine(p.left.rows[i], p.right.rows[i]));
    InnerHeads(p, heads);
    ConcatHeads(p.Parts(), heads);
  }

  /** Left rows past the right side's end yield nothing. */
  lemma InnerTail(p: Plan, m: nat)
    requires p.how == Inner && p.lk in p.left.columns && p.rk in p.right.columns
    requires DenseKey(p.left, p.lk) && DenseKey(p.right, p.rk)
    requires m == |p.right.rows| <= |p.left.rows| || m == |p.left.rows|
    ensures forall i :: m <= i < |p.left.rows| ==> p.Parts()[i] == []
  {
    forall i | m <= i < |p.left.rows| ensures p.Parts()[i] == [] {
      InnerRowUnmatched(p, i);
    }
  }

  /** Left rows the right side reaches yield the combined row. */
  lemma InnerHeads(p: Plan, heads: seq<Row>)
    requires p.how == Inner && p.lk in p.left.columns && p.rk in p.right.columns
    requires DenseKey(p.left, p.lk) && DenseKey(p.right, p.rk)
    requires |heads| <= |p.left.rows| && |heads| <= |p.right.rows|
    requires forall i :: 0 <= i < |heads| ==> heads[i] == p.Combine(p.left.rows[i], p.right.rows[i])
    ensures forall i :: 0 <= i < |heads| ==> p.Parts()[i] == [heads[i]]
  {
    forall i | 0 <= i < |heads| ensures p.Parts()[i] == [heads[i]] {
      InnerRowFor(p, i);
    }
  }
}
