/** The slice of the pandas `DataFrame` the transform relies on: a table is an
    ordered list of column names and a sequence of rows, each row mapping every
    column name to a cell, and a cell is either a value or missing. */
module Frame {
  import opened Wrappers
  import opened Seqs

  /** Cell values. Integer codes the transform inspects (rate codes, payment
      types, positions) are `Int`; everything it only carries along (fares,
      distances, timestamps, flags) is an uninterpreted `Opaque` token. */
  datatype Value = Int(n: int) | Text(s: string) | Opaque(token: int)

  /** A cell; `None` is a missing value (NaN / NaT). */
  type Cell = Option<Value>

  type Row = map<string, Cell>

  datatype Table = Table(columns: seq<string>, rows: seq<Row>)

  /** The only exception the modelled operations raise: a named column that
      does not exist. */
  datatype Error = KeyError(column: string)

  function Cols(cols: seq<string>): set<string> {
    set c | c in cols
  }

  /** Column labels are distinct and every row has exactly the table's columns. */
  predicate WellFormed(t: Table) {
    && Distinct(t.columns)
    && forall i :: 0 <= i < |t.rows| ==> t.rows[i].Keys == Cols(t.columns)
  }

  type Frame = t: Table | WellFormed(t) witness Table([], [])

  /** The column `c` of row `i` exists in a well-formed table. */
  lemma CellExists(t: Frame, i: int, c: string)
    requires 0 <= i < |t.rows| && c in t.columns
    ensures c in t.rows[i]
  {
  }

  /** `cols` with the names in `drop` removed, order kept. */
  function Without(cols: seq<string>, drop: set<string>): (r: seq<string>)
    ensures Cols(r) == Cols(cols) - drop
    ensures Distinct(cols) ==> Distinct(r)
  {
    if |cols| == 0 then []
    else
      var rest := Without(cols[1..], drop);
      assert Cols(cols) == {cols[0]} + Cols(cols[1..]);
      if cols[0] in drop then rest
      else
        ColsConcat([cols[0]], rest);
        assert Distinct(cols) ==> cols[0] !in Cols(cols[1..]);
        if Distinct(cols) then DistinctConcat([cols[0]], rest); [cols[0]] + rest
        else [cols[0]] + rest
  }

  lemma ColsConcat(a: seq<string>, b: seq<string>)
    ensures Cols(a + b) == Cols(a) + Cols(b)
  {
    assert forall c :: c in a + b <==> c in a || c in b;
  }

  /** Dropping names the list does not hold changes nothing. */
  lemma {:induction false} WithoutNothing(cols: seq<string>, drop: set<string>)
    requires forall c :: c in cols ==> c !in drop
    ensures Without(cols, drop) == cols
  {
    if |cols| > 0 {
      assert cols[0] in cols;
      forall c | c in cols[1..] ensures c !in drop {
        assert c in cols;
      }
      WithoutNothing(cols[1..], drop);
      assert Without(cols, drop) == [cols[0]] + Without(cols[1..], drop);
      assert cols == [cols[0]] + cols[1..];
    }
  }

  /** Dropping names distributes over concatenation. */
  lemma {:induction false} WithoutConcat(a: seq<string>, b: seq<string>, drop: set<string>)
    ensures Without(a + b, drop) == Without(a, drop) + Without(b, drop)
  {
    if |a| > 0 {
      WithoutConcat(a[1..], b, drop);
      assert (a + b)[1..] == a[1..] + b;
    } else {
      assert a + b == b;
    }
  }

  /** Two duplicate-free lists with no name in common concatenate to a
      duplicate-free list. */
  lemma DistinctConcat(a: seq<string>, b: seq<string>)
    requires Distinct(a) && Distinct(b) && Cols(a) !! Cols(b)
    ensures Distinct(a + b)
  {
    forall i, j | 0 <= i < j < |a + b|
      ensures (a + b)[i] != (a + b)[j]
    {
      if i < |a| && |a| <= j {
        assert (a + b)[i] in Cols(a) && (a + b)[j] in Cols(b);
      }
    }
  }

  /** The first name of `want` that is not a column, if any. */
  function MissingColumn(want: seq<string>, have: seq<string>): (r: Option<string>)
    ensures r.None? <==> forall c :: c in want ==> c in have
    ensures r.Some? ==> r.value in want && r.value !in have
  {
    if |want| == 0 then None
    else if want[0] !in have then Some(want[0])
    else MissingColumn(want[1..], have)
  }

  /** `row` restricted to the names in `keys`. */
  function Restrict(row: Row, keys: set<string>): Row {
    map c | c in keys && c in row :: row[c]
  }

  /** `df[cols]`: the listed columns, in the listed order; `KeyError` when one
      of them is not a column. */
  function Select(t: Frame, cols: seq<string>): (r: Result<Frame, Error>)
    requires Distinct(cols)
    ensures r.Success? <==> forall c :: c in cols ==> c in t.columns
    ensures r.Failure? ==> r.error.column in cols && r.error.column !in t.columns
    ensures r.Success? ==> r.value.columns == cols && |r.value.rows| == |t.rows|
    ensures r.Success? ==>
              forall i, c :: 0 <= i < |t.rows| && c in cols ==> r.value.rows[i][c] == t.rows[i][c]
  {
    match MissingColumn(cols, t.columns)
    case Some(c) => Failure(KeyError(c))
    case None =>
      Success(Table(cols, seq(|t.rows|, i requires 0 <= i < |t.rows| => Restrict(t.rows[i], Cols(cols)))))
  }

  /** `df[name] = values` for a column aligned with the rows by position: an
      existing column is overwritten in place, a new one is appended. */
  function WithColumn(t: Frame, name: string, values: seq<Cell>): (r: Frame)
    requires |values| == |t.rows|
    ensures |r.rows| == |t.rows|
    ensures name in t.columns ==> r.columns == t.columns
    ensures name !in t.columns ==> r.columns == t.columns + [name]
    ensures forall i :: 0 <= i < |r.rows| ==> r.rows[i][name] == values[i]
    ensures forall i, c :: 0 <= i < |r.rows| && c in t.columns && c != name ==> r.rows[i][c] == t.rows[i][c]
  {
    var cols := if name in t.columns then t.columns else t.columns + [name];
    assert Cols(cols) == Cols(t.columns) + {name};
    assert name !in t.columns ==> Distinct(t.columns + [name]);
    Table(cols, seq(|t.rows|, i requires 0 <= i < |t.rows| => t.rows[i][name := values[i]]))
  }

  /** `df[name] = df[src].map(f)`: a column computed cell by cell from
      another one. */
  function Derive(t: Frame, src: string, name: string, f: Cell -> Cell): (r: Frame)
    requires src in t.columns
    ensures |r.rows| == |t.rows|
    ensures name in t.columns ==> r.columns == t.columns
    ensures name !in t.columns ==> r.columns == t.columns + [name]
    ensures forall i :: 0 <= i < |t.rows| ==>
              i < |r.rows| && name in r.rows[i] && src in t.rows[i] && r.rows[i][name] == f(t.rows[i][src])
    ensures forall i, c :: 0 <= i < |t.rows| && c in t.columns && c != name ==>
              i < |r.rows| && c in r.rows[i] && c in t.rows[i] && r.rows[i][c] == t.rows[i][c]
  {
    WithColumn(t, name, seq(|t.rows|, i requires 0 <= i < |t.rows| => CellAt(t, i, src, f)))
  }

  function CellAt(t: Frame, i: int, src: string, f: Cell -> Cell): Cell
    requires 0 <= i < |t.rows| && src in t.columns
  {
    assert t.rows[i].Keys == Cols(t.columns);
    f(t.rows[i][src])
  }

  /** `r` has every row and every column of `t`, with the same cells. */
  predicate Extends(r: Table, t: Table) {
    && |r.rows| == |t.rows|
    && (forall c :: c in t.columns ==> c in r.columns)
    && forall i, c :: 0 <= i < |t.rows| && c in t.columns ==>
         i < |r.rows| && c in r.rows[i] && c in t.rows[i] && r.rows[i][c] == t.rows[i][c]
  }

  /** Rows `a` and `b` hold the same cell in every column of `cols`. */
  predicate AgreesOn(a: Row, b: Row, cols: set<string>) {
    forall c :: c in cols ==> c in a && c in b && a[c] == b[c]
  }

  /** The column of row positions `0, 1, ..., n - 1` (a `RangeIndex`). */
  function Positions(n: nat): (p: seq<Cell>)
    ensures |p| == n && forall i :: 0 <= i < n ==> p[i] == Some(Int(i))
  {
    seq(n, i requires 0 <= i < n => Some(Int(i)))
  }

  /** Column `k` holds every row's own position. */
  predicate DenseKey(t: Table, k: string) {
    forall i :: 0 <= i < |t.rows| ==> k in t.rows[i] && t.rows[i][k] == Some(Int(i))
  }

  /** `df[name] = df.index` on a table whose index is `0 .. n - 1`. */
  function IndexColumn(t: Frame, name: string): (r: Frame)
    ensures |r.rows| == |t.rows| && name in r.columns && DenseKey(r, name)
    ensures name in t.columns ==> r.columns == t.columns
    ensures name !in t.columns ==> r.columns == t.columns + [name]
    ensures forall i, c :: 0 <= i < |r.rows| && c in t.columns && c != name ==> r.rows[i][c] == t.rows[i][c]
  {
    WithColumn(t, name, Positions(|t.rows|))
  }

  lemma ExtendsTrans(r: Table, d: Table, t: Table)
    requires Extends(r, d) && Extends(d, t)
    ensures Extends(r, t)
  {
    forall i, c | 0 <= i < |t.rows| && c in t.columns
      ensures i < |r.rows| && c in r.rows[i] && c in t.rows[i] && r.rows[i][c] == t.rows[i][c]
    {
      assert c in d.columns;
    }
  }

  /** A new position column leaves every existing cell alone. */
  lemma IndexColumnExtends(t: Frame, name: string)
    requires name !in t.columns
    ensures Extends(IndexColumn(t, name), t)
  {
  }

  /** `df.drop(name, axis=1)`. */
  function DropColumn(t: Frame, name: string): (r: Result<Frame, Error>)
    ensures r.Success? <==> name in t.columns
    ensures r.Failure? ==> r.error == KeyError(name)
    ensures r.Success? ==> r.value.columns == Without(t.columns, {name}) && |r.value.rows| == |t.rows|
    ensures r.Success? ==>
              forall i, c :: 0 <= i < |t.rows| && c in t.columns && c != name ==> r.value.rows[i][c] == t.rows[i][c]
  {
    if name !in t.columns then Failure(KeyError(name))
    else Success(Table(Without(t.columns, {name}), seq(|t.rows|, i requires 0 <= i < |t.rows| => t.rows[i] - {name})))
  }

  /** Dropping a column keeps a row's agreement on the other columns. */
  lemma DroppedAgrees(t: Frame, name: string, k: int, l: Row, keep: set<string>)
    requires name in t.columns && 0 <= k < |t.rows|
    requires keep <= Cols(t.columns) && AgreesOn(t.rows[k], l, keep)
    ensures k < |DropColumn(t, name).value.rows|
    ensures AgreesOn(DropColumn(t, name).value.rows[k], l, keep - {name})
  {
    var d := DropColumn(t, name).value;
    forall c | c in keep - {name} ensures c in d.rows[k] {
      assert c in Cols(d.columns);
    }
  }

  /** Dropping a column keeps, for every row of `rows` that some row of `t`
      agreed with on `keep`, a row that agrees with it on `want`. */
  lemma DroppedKeepsRows(t: Frame, name: string, rows: seq<Row>, keep: set<string>, want: set<string>)
    requires name in t.columns && keep <= Cols(t.columns) && want <= keep - {name}
    requires forall i :: 0 <= i < |rows| ==> RowKept(t, rows[i], keep)
    ensures forall i :: 0 <= i < |rows| ==> RowKept(DropColumn(t, name).value, rows[i], want)
  {
    forall i | 0 <= i < |rows| ensures RowKept(DropColumn(t, name).value, rows[i], want) {
      var k :| 0 <= k < |t.rows| && AgreesOn(t.rows[k], rows[i], keep);
      DroppedAgrees(t, name, k, rows[i], keep);
      var d := DropColumn(t, name).value;
      AgreesOnFewer(d.rows[k], rows[i], keep - {name}, want);
      assert 0 <= k < |d.rows| && AgreesOn(d.rows[k], rows[i], want);
    }
  }

  /** Some row of `t` agrees with `l` on `cols`. */
  predicate RowKept(t: Table, l: Row, cols: set<string>) {
    exists k :: 0 <= k < |t.rows| && AgreesOn(t.rows[k], l, cols)
  }

  lemma AgreesOnFewer(a: Row, b: Row, more: set<string>, fewer: set<string>)
    requires fewer <= more && AgreesOn(a, b, more)
    ensures AgreesOn(a, b, fewer)
  {
  }

  /** A row of missing values over `keys`. */
  function NullRow(keys: set<string>): (r: Row)
    ensures r.Keys == keys && forall c :: c in keys ==> r[c] == None
  {
    map c | c in keys :: None
  }

  /** `df.drop_duplicates().reset_index(drop=True)`: rows that agree on every
      column collapse to their first occurrence; missing values compare equal. */
  function DropDuplicateRows(t: Frame): (r: Frame)
    ensures r.columns == t.columns && r.rows == DropDuplicates(t.rows)
  {
    var rows := DropDuplicates(t.rows);
    assert forall k :: 0 <= k < |rows| ==> rows[k].Keys == Cols(t.columns) by {
      forall k | 0 <= k < |rows| ensures rows[k].Keys == Cols(t.columns) {
        assert rows[k] in t.rows;
      }
    }
    Table(t.columns, rows)
  }

  /** `f` sends no two of the names in `cols` to the same name. */
  predicate InjectiveOn(f: string -> string, cols: seq<string>) {
    forall c, d :: c in cols && d in cols && c != d ==> f(c) != f(d)
  }

  /** `row` with every column `c` relabelled `f(c)`. */
  function RenameRow(row: Row, f: string -> string, cols: seq<string>): (r: Row)
    requires row.Keys == Cols(cols) && InjectiveOn(f, cols)
    ensures r.Keys == Image(f, cols)
    ensures forall c :: c in cols ==> f(c) in r && r[f(c)] == row[c]
  {
    map c | c in row.Keys :: f(c) := row[c]
  }

  function Image(f: string -> string, cols: seq<string>): set<string> {
    set c | c in cols :: f(c)
  }

  /** Relabelling each name of a list. */
  function MapNames(f: string -> string, cols: seq<string>): (r: seq<string>)
    ensures |r| == |cols| && forall k :: 0 <= k < |cols| ==> r[k] == f(cols[k])
    ensures Cols(r) == Image(f, cols)
    ensures Distinct(cols) && InjectiveOn(f, cols) ==> Distinct(r)
  {
    var r := seq(|cols|, k requires 0 <= k < |cols| => f(cols[k]));
    assert Cols(r) == Image(f, cols) by {
      forall x | x in Cols(r) ensures x in Image(f, cols) {
        var k :| 0 <= k < |r| && r[k] == x;
        assert cols[k] in cols;
      }
      forall c | c in cols ensures f(c) in Cols(r) {
        var k :| 0 <= k < |cols| && cols[k] == c;
        assert r[k] == f(c);
      }
    }
    r
  }

  /** `df.rename(columns=f)` for a relabelling that keeps the labels distinct. */
  function RenameColumns(t: Frame, f: string -> string): (r: Frame)
    requires InjectiveOn(f, t.columns)
    ensures |r.columns| == |t.columns| && |r.rows| == |t.rows|
    ensures forall k :: 0 <= k < |t.columns| ==> r.columns[k] == f(t.columns[k])
    ensures forall i, c :: 0 <= i < |t.rows| && c in t.columns ==> f(c) in r.rows[i] && r.rows[i][f(c)] == t.rows[i][c]
  {
    var cols := MapNames(f, t.columns);
    var rows := seq(|t.rows|, i requires 0 <= i < |t.rows| => RenameRow(t.rows[i], f, t.columns));
    assert forall i :: 0 <= i < |rows| ==> rows[i].Keys == Cols(cols);
    Table(cols, rows)
  }

  /** Relabelling with `f` and then with a `g` that undoes `f` on these
      columns gives back the table. */
  lemma RenameColumnsRoundTrip(t: Frame, f: string -> string, g: string -> string)
    requires InjectiveOn(f, t.columns)
    requires forall c :: c in t.columns ==> g(f(c)) == c
    ensures InjectiveOn(g, RenameColumns(t, f).columns)
    ensures RenameColumns(RenameColumns(t, f), g) == t
  {
    var r := RenameColumns(t, f);
    RenamedInjective(t, f, g);
    var back := RenameColumns(r, g);
    assert back.columns == t.columns;
    forall i | 0 <= i < |t.rows| ensures back.rows[i] == t.rows[i] {
      RenameRowRoundTrip(t, f, g, i);
    }
  }

  lemma RenamedInjective(t: Frame, f: string -> string, g: string -> string)
    requires InjectiveOn(f, t.columns)
    requires forall c :: c in t.columns ==> g(f(c)) == c
    ensures InjectiveOn(g, RenameColumns(t, f).columns)
  {
    var r := RenameColumns(t, f);
    forall a, b | a in r.columns && b in r.columns && a != b ensures g(a) != g(b) {
      var ka :| 0 <= ka < |r.columns| && r.columns[ka] == a;
      var kb :| 0 <= kb < |r.columns| && r.columns[kb] == b;
      assert t.columns[ka] in t.columns && t.columns[kb] in t.columns;
    }
  }

  lemma RenameRowRoundTrip(t: Frame, f: string -> string, g: string -> string, i: int)
    requires InjectiveOn(f, t.columns)
    requires forall c :: c in t.columns ==> g(f(c)) == c
    requires 0 <= i < |t.rows|
    ensures InjectiveOn(g, RenameColumns(t, f).columns)
    ensures RenameColumns(RenameColumns(t, f), g).rows[i] == t.rows[i]
  {
    var r := RenameColumns(t, f);
    RenamedInjective(t, f, g);
    assert r.columns == MapNames(f, t.columns);
    assert r.rows[i] == RenameRow(t.rows[i], f, t.columns);
    RenameRowTwice(t.rows[i], f, g, t.columns);
  }

  lemma RenameRowTwice(row: Row, f: string -> string, g: string -> string, cols: seq<string>)
    requires row.Keys == Cols(cols) && InjectiveOn(f, cols)
    requires forall c :: c in cols ==> g(f(c)) == c
    requires InjectiveOn(g, MapNames(f, cols))
    ensures RenameRow(row, f, cols).Keys == Cols(MapNames(f, cols))
    ensures RenameRow(RenameRow(row, f, cols), g, MapNames(f, cols)) == row
  {
    var once := RenameRow(row, f, cols);
    var twice := RenameRow(once, g, MapNames(f, cols));
    assert twice.Keys == row.Keys by {
      forall x | x in Image(g, MapNames(f, cols)) ensures x in Cols(cols) {
        var y :| y in MapNames(f, cols) && g(y) == x;
        assert y in Image(f, cols);
        var c :| c in cols && f(c) == y;
      }
      forall c | c in cols ensures c in Image(g, MapNames(f, cols)) {
        assert f(c) in Cols(MapNames(f, cols));
        assert g(f(c)) == c;
      }
    }
    forall c | c in row ensures twice[c] == row[c] {
      assert f(c) in MapNames(f, cols);
      assert twice[g(f(c))] == once[f(c)];
    }
  }
}
