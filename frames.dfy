/** The table the pipeline works on: an ordered list of column names and a sequence of rows,
    each row mapping column names to a cell that is either missing or holds a value. */
module Frames {
  import opened Wrappers

  /** A non-missing cell value: a string, an integer or a float (floats are exact reals here). */
  datatype Value = Str(s: string) | Int(i: int) | Real(r: real)

  /** A cell: `None` is pandas' missing value (NaN / NA). */
  type Cell = Option<Value>

  type Row = map<string, Cell>

  datatype Frame = Frame(columns: seq<string>, rows: seq<Row>)

  /** The cell of column `c` in row `r`; a column the row does not hold reads as missing. */
  function Get(r: Row, c: string): Cell
  {
    if c in r then r[c] else None
  }

  /** The numeric reading of a cell: integers and floats compare as numbers. */
  function NumOf(c: Cell): Option<real>
  {
    match c
    case Some(Int(i)) => Some(i as real)
    case Some(Real(x)) => Some(x)
    case _ => None
  }

  /** `cell == x` on a numeric column; a missing cell is never equal. */
  predicate IsNum(c: Cell, x: real)
  {
    NumOf(c) == Some(x)
  }

  predicate Distinct<T(==)>(s: seq<T>)
  {
    forall i, j :: 0 <= i < j < |s| ==> s[i] != s[j]
  }

  /** Every row holds exactly the frame's columns, and no column name is repeated. */
  ghost predicate Valid(t: Frame)
  {
    && Distinct(t.columns)
    && forall i :: 0 <= i < |t.rows| ==> t.rows[i].Keys == set c | c in t.columns
  }

  /** `rows'` differs from `rows` at most in the columns `cs`: same length, every other cell equal. */
  ghost predicate OnlyChanges(rows: seq<Row>, rows': seq<Row>, cs: seq<string>)
  {
    && |rows'| == |rows|
    && forall i, x :: 0 <= i < |rows| && x !in cs ==> Get(rows'[i], x) == Get(rows[i], x)
  }

  /** Every cell of column `c` that was present in `rows` is unchanged in `rows'`. */
  ghost predicate KeepsPresent(rows: seq<Row>, rows': seq<Row>, c: string)
    requires |rows'| == |rows|
  {
    forall i :: 0 <= i < |rows| && Get(rows[i], c).Some? ==> Get(rows'[i], c) == Get(rows[i], c)
  }

  lemma OnlyChangesTrans(a: seq<Row>, b: seq<Row>, c: seq<Row>, s1: seq<string>, s2: seq<string>)
    requires OnlyChanges(a, b, s1) && OnlyChanges(b, c, s2)
    ensures OnlyChanges(a, c, s1 + s2)
  {
  }

  /** The values of one column, one cell per row (`df[c]`). */
  function Column(t: Frame, c: string): seq<Cell>
  {
    seq(|t.rows|, i requires 0 <= i < |t.rows| => Get(t.rows[i], c))
  }

  /** `df[c] = vals`: overwrite (or append) column `c` with one cell per row. */
  function WithColumn(t: Frame, c: string, vals: seq<Cell>): (r: Frame)
    requires |vals| == |t.rows|
    ensures c in r.columns
    ensures forall x :: x in t.columns ==> x in r.columns
    ensures c in t.columns ==> r.columns == t.columns
    ensures c !in t.columns ==> r.columns == t.columns + [c]
    ensures |r.rows| == |t.rows|
    ensures OnlyChanges(t.rows, r.rows, [c])
    ensures forall i :: 0 <= i < |vals| ==> Get(r.rows[i], c) == vals[i]
    ensures Valid(t) ==> Valid(r)
  {
    var cols := if c in t.columns then t.columns else t.columns + [c];
    var r := Frame(cols, seq(|t.rows|, i requires 0 <= i < |t.rows| => t.rows[i][c := vals[i]]));
    assert Valid(t) ==> forall i :: 0 <= i < |r.rows| ==> r.rows[i].Keys == set x | x in cols by {
      if Valid(t) {
        forall i | 0 <= i < |r.rows| ensures r.rows[i].Keys == set x | x in cols {
          assert r.rows[i].Keys == t.rows[i].Keys + {c};
        }
      }
    }
    r
  }

  /** `df.loc[mask, c] = v`: set column `c` to `v` in the rows the mask selects. */
  function AssignWhere(t: Frame, mask: seq<bool>, c: string, v: Cell): (r: Frame)
    requires |mask| == |t.rows|
    ensures r.columns == t.columns || c !in t.columns
    ensures OnlyChanges(t.rows, r.rows, [c])
    ensures forall i :: 0 <= i < |mask| ==> Get(r.rows[i], c) == if mask[i] then v else Get(t.rows[i], c)
  {
    WithColumn(t, c, seq(|mask|, i requires 0 <= i < |mask| => if mask[i] then v else Get(t.rows[i], c)))
  }

  /** `df[c].isna()` */
  function MissingMask(t: Frame, c: string): (m: seq<bool>)
    ensures |m| == |t.rows|
    ensures forall i :: 0 <= i < |m| ==> (m[i] <==> Get(t.rows[i], c).None?)
  {
    seq(|t.rows|, i requires 0 <= i < |t.rows| => Get(t.rows[i], c).None?)
  }

  /** `df[c] == s` on a string column, a missing cell counting as false in a `.loc` mask. */
  function StrMask(t: Frame, c: string, s: string): (m: seq<bool>)
    ensures |m| == |t.rows|
    ensures forall i :: 0 <= i < |m| ==> (m[i] <==> Get(t.rows[i], c) == Some(Str(s)))
  {
    seq(|t.rows|, i requires 0 <= i < |t.rows| => Get(t.rows[i], c) == Some(Str(s)))
  }

  /** `df[c] == x` on a numeric column (missing compares unequal). */
  function NumMask(t: Frame, c: string, x: real): (m: seq<bool>)
    ensures |m| == |t.rows|
    ensures forall i :: 0 <= i < |m| ==> (m[i] <==> IsNum(Get(t.rows[i], c), x))
  {
    seq(|t.rows|, i requires 0 <= i < |t.rows| => IsNum(Get(t.rows[i], c), x))
  }

  /** Element-wise `a & b` of two masks. */
  function And(a: seq<bool>, b: seq<bool>): (m: seq<bool>)
    requires |a| == |b|
    ensures |m| == |a|
    ensures forall i :: 0 <= i < |m| ==> (m[i] <==> a[i] && b[i])
  {
    seq(|a|, i requires 0 <= i < |a| => a[i] && b[i])
  }

  /** The names of `cols` not listed in `cs`, in order. */
  function Without(cols: seq<string>, cs: seq<string>): (r: seq<string>)
    ensures forall x :: x in r <==> x in cols && x !in cs
    ensures |r| <= |cols|
  {
    if |cols| == 0 then []
    else if cols[0] in cs then Without(cols[1..], cs)
    else [cols[0]] + Without(cols[1..], cs)
  }

  /** `df.drop(columns=cs)`: every name must be a column; the named columns leave the column
      list and every row, and nothing else changes. */
  function Drop(t: Frame, cs: seq<string>): (r: Result<Frame>)
    ensures r.Err? <==> exists j :: 0 <= j < |cs| && cs[j] !in t.columns
    ensures r.Ok? ==> r.value.columns == Without(t.columns, cs)
    ensures r.Ok? ==> OnlyChanges(t.rows, r.value.rows, cs)
    ensures r.Ok? ==> forall i, x :: 0 <= i < |t.rows| && x in cs ==> Get(r.value.rows[i], x).None?
  {
    if exists j :: 0 <= j < |cs| && cs[j] !in t.columns then Err("not found in axis")
    else Ok(Frame(Without(t.columns, cs), seq(|t.rows|, i requires 0 <= i < |t.rows| => t.rows[i] - (set x | x in cs))))
  }
}
