/** The column splitter `split_and_insert` (functions/helpers.py): split a delimited string
    column into named parts and place the new columns right after the source column. */
module Splitter {
  import opened Wrappers
  import opened Frames
  import opened Text

  /** Python's `list.pop(k)`: the list without its element at `k`. */
  function Pop<T>(s: seq<T>, k: nat): (r: seq<T>)
    requires k < |s|
    ensures |r| == |s| - 1
  {
    s[..k] + s[k + 1..]
  }

  /** Python's `list.insert(k, x)`: an index past the end appends. */
  function InsertAt<T>(s: seq<T>, k: nat, x: T): (r: seq<T>)
    ensures |r| == |s| + 1
  {
    if k >= |s| then s + [x] else s[..k] + [x] + s[k..]
  }

  lemma PopInsertPermutes<T>(s: seq<T>, k: nat, i: nat)
    requires k < |s|
    ensures multiset(InsertAt(Pop(s, k), i, s[k])) == multiset(s)
  {
    assert s == s[..k] + [s[k]] + s[k + 1..];
    assert multiset(s) == multiset(s[..k]) + multiset{s[k]} + multiset(s[k + 1..]);
    var p := Pop(s, k);
    assert multiset(p) == multiset(s[..k]) + multiset(s[k + 1..]);
    if i < |p| {
      assert p == p[..i] + p[i..];
      assert multiset(p) == multiset(p[..i]) + multiset(p[i..]);
      assert InsertAt(p, i, s[k]) == p[..i] + [s[k]] + p[i..];
      var x := s[k];
      assert multiset(p[..i] + [x] + p[i..]) == multiset(p[..i] + [x]) + multiset(p[i..]);
      assert multiset(p[..i] + [x]) == multiset(p[..i]) + multiset{x};
      assert multiset(InsertAt(p, i, x)) == multiset(p) + multiset{x};
      assert multiset(InsertAt(p, i, x)) == multiset(s);
    }
  }

  /** One turn of the reorder loop: `cols.insert(at, cols.pop(cols.index(c)))`. The loop only
      moves names that are in the list (`list.index` would raise otherwise); an absent name
      leaves the list as it is. */
  function Move(r: seq<string>, c: string, at: nat): (r': seq<string>)
    ensures multiset(r') == multiset(r)
  {
    if c !in r then r
    else
      var k := FirstIndex(r, c);
      PopInsertPermutes(r, k, at);
      InsertAt(Pop(r, k), at, c)
  }

  /** The column order after the first `j` turns of the reorder loop of `split_and_insert`. */
  function Reordered(cols: seq<string>, colIndex: nat, newCols: seq<string>, j: nat): (r: seq<string>)
    requires j <= |newCols|
    ensures multiset(r) == multiset(cols)
  {
    if j == 0 then cols
    else Move(Reordered(cols, colIndex, newCols, j - 1), newCols[j - 1], colIndex + j)
  }

  /** The reorder loop of `split_and_insert`: every new column in turn is popped from where it is
      and inserted at `colIndex + place`. */
  method ReorderColumns(cols: seq<string>, colIndex: nat, newCols: seq<string>) returns (r: seq<string>)
    requires forall j :: 0 <= j < |newCols| ==> newCols[j] in cols
    ensures r == Reordered(cols, colIndex, newCols, |newCols|)
    ensures multiset(r) == multiset(cols)
  {
    r := cols;
    var place := 1;
    for j := 0 to |newCols|
      invariant place == j + 1
      invariant r == Reordered(cols, colIndex, newCols, j)
    {
      r := Move(r, newCols[j], colIndex + place);
      place := place + 1;
    }
  }

  /** When the new columns were appended to distinct original columns `base`, the first `j`
      turns of the reorder leave the original columns up to and including the split column,
      then the first `j` new columns in order, then the rest of the original columns, then the
      new columns not yet moved. */
  lemma {:induction false} ReorderedFresh(base: seq<string>, colIndex: nat, newCols: seq<string>, j: nat)
    requires Distinct(base + newCols) && colIndex < |base| && j <= |newCols|
    ensures Reordered(base + newCols, colIndex, newCols, j)
         == base[..colIndex + 1] + newCols[..j] + base[colIndex + 1..] + newCols[j..]
  {
    if j == 0 {
      assert base == base[..colIndex + 1] + base[colIndex + 1..];
      assert newCols[..0] == [] && newCols[0..] == newCols;
    } else {
      ReorderedFresh(base, colIndex, newCols, j - 1);
      var prev := Reordered(base + newCols, colIndex, newCols, j - 1);
      var c := newCols[j - 1];
      assert prev[|base| + j - 1] == c;
      FreshStep(base, newCols, colIndex, j, prev, FirstIndex(prev, c));
    }
  }

  /** Turn `j` (counting from one) of the reorder loop in the fresh case. */
  lemma FreshStep(base: seq<string>, newCols: seq<string>, colIndex: nat, j: nat, r: seq<string>, k: nat)
    requires Distinct(base + newCols) && colIndex < |base| && 0 < j <= |newCols|
    requires r == base[..colIndex + 1] + newCols[..j - 1] + base[colIndex + 1..] + newCols[j - 1..]
    requires k < |r| && r[k] == newCols[j - 1] && newCols[j - 1] !in r[..k]
    ensures InsertAt(Pop(r, k), colIndex + j, newCols[j - 1])
         == base[..colIndex + 1] + newCols[..j] + base[colIndex + 1..] + newCols[j..]
  {
    var c := newCols[j - 1];
    var a, b, d, f := base[..colIndex + 1], newCols[..j - 1], base[colIndex + 1..], newCols[j..];
    assert newCols[j - 1..] == [c] + f;
    FreshFound(base, newCols, colIndex, j, r, k);
    MoveBlock(a, b, d, f, c, r);
    assert newCols[..j] == b + [c];
  }

  /** In the fresh case the name moved in turn `j` is found right after the original columns
      and the new columns already placed. */
  lemma FreshFound(base: seq<string>, newCols: seq<string>, colIndex: nat, j: nat, r: seq<string>, k: nat)
    requires Distinct(base + newCols) && colIndex < |base| && 0 < j <= |newCols|
    requires r == base[..colIndex + 1] + newCols[..j - 1] + base[colIndex + 1..] + newCols[j - 1..]
    requires k < |r| && r[k] == newCols[j - 1] && newCols[j - 1] !in r[..k]
    ensures k == |base| + j - 1
  {
    var all := base + newCols;
    var c := newCols[j - 1];
    var a, b, d := base[..colIndex + 1], newCols[..j - 1], base[colIndex + 1..];
    var m := |base| + j - 1;
    assert r[m] == c;
    assert all[m] == c;
    forall x | 0 <= x < |a| ensures a[x] != c { assert a[x] == all[x]; }
    forall x | 0 <= x < |b| ensures b[x] != c { assert b[x] == all[|base| + x]; }
    forall x | 0 <= x < |d| ensures d[x] != c { assert d[x] == all[colIndex + 1 + x]; }
    assert r[..m] == a + b + d;
  }

  /** Popping `x` from behind `d` and inserting it in front of `d`. */
  lemma MoveBlock<T>(a: seq<T>, b: seq<T>, d: seq<T>, f: seq<T>, x: T, r: seq<T>)
    requires r == a + b + d + ([x] + f)
    ensures InsertAt(Pop(r, |a| + |b| + |d|), |a| + |b|, x) == a + (b + [x]) + d + f
  {
    assert r[..|a| + |b| + |d|] == a + b + d;
    assert r[|a| + |b| + |d| + 1..] == f;
    var p := Pop(r, |a| + |b| + |d|);
    assert p == a + b + d + f;
    assert p[..|a| + |b|] == a + b;
    assert p[|a| + |b|..] == d + f;
  }

  /** `str.split(d)` of one cell as `expand=True` lays it out: a string gives its parts; a missing
      or non-string cell gives a single missing part. */
  function Parts(c: Cell, d: char): (ps: seq<Cell>)
    ensures |ps| == PartCount(c, d)
    ensures forall j :: 0 <= j < |ps| ==> ps[j].None? || (ps[j].value.Str? && d !in ps[j].value.s)
  {
    match c
    case Some(Str(s)) =>
      var parts := SplitOn(s, d);
      seq(|parts|, j requires 0 <= j < |parts| => Some(Str(parts[j])))
    case _ => [None]
  }

  /** How many parts a cell splits into: at least one. */
  function PartCount(c: Cell, d: char): (n: nat)
    ensures n >= 1
  {
    match c
    case Some(Str(s)) => |SplitOn(s, d)|
    case _ => 1
  }

  /** Part `j` of a cell, missing past its last part (pandas pads short rows with missing). */
  function Part(c: Cell, d: char, j: nat): Cell
  {
    var ps := Parts(c, d);
    if j < |ps| then ps[j] else None
  }

  /** The number of columns `str.split(d, expand=True)` produces for a column: the largest part
      count over its rows, and none for a column without rows. */
  function Width(src: seq<Cell>, d: char): (w: nat)
    ensures forall i :: 0 <= i < |src| ==> PartCount(src[i], d) <= w
    ensures |src| == 0 <==> w == 0
  {
    if |src| == 0 then 0
    else
      var n := |src| - 1;
      var w := Width(src[..n], d);
      assert forall i :: 0 <= i < n ==> src[..n][i] == src[i];
      var last := PartCount(src[n], d);
      if last > w then last else w
  }

  /** The width is attained: some row splits into exactly that many parts. */
  lemma {:induction false} WidthAttained(src: seq<Cell>, d: char)
    requires |src| > 0
    ensures exists i :: 0 <= i < |src| && PartCount(src[i], d) == Width(src, d)
  {
    var n := |src| - 1;
    if PartCount(src[n], d) > Width(src[..n], d) {
      assert PartCount(src[n], d) == Width(src, d);
    } else {
      assert n > 0;
      WidthAttained(src[..n], d);
      var i :| 0 <= i < n && PartCount(src[..n][i], d) == Width(src[..n], d);
      assert src[..n][i] == src[i];
    }
  }

  /** `df[new_cols] = expanded`: column `newCols[j]` receives part `j` of every cell of `src`,
      the columns assigned in order (an absent one is appended). */
  function AssignParts(t: Frame, src: seq<Cell>, d: char, newCols: seq<string>): (r: Frame)
    requires |src| == |t.rows|
    ensures |r.rows| == |t.rows|
    ensures forall c :: c in t.columns ==> c in r.columns
    ensures forall j :: 0 <= j < |newCols| ==> newCols[j] in r.columns
    ensures forall c :: c in r.columns ==> c in t.columns || c in newCols
    ensures (forall j :: 0 <= j < |newCols| ==> newCols[j] !in t.columns) && Distinct(newCols) ==>
      r.columns == t.columns + newCols
  {
    if |newCols| == 0 then t
    else
      var k := |newCols| - 1;
      var prev := AssignParts(t, src, d, newCols[..k]);
      assert forall j :: 0 <= j < k ==> newCols[..k][j] == newCols[j];
      assert newCols == newCols[..k] + [newCols[k]];
      WithColumn(prev, newCols[k], PartColumn(src, d, k))
  }

  /** Part `j` of every cell of `src`. */
  function PartColumn(src: seq<Cell>, d: char, j: nat): (vals: seq<Cell>)
    ensures |vals| == |src|
    ensures forall i :: 0 <= i < |src| ==> vals[i] == Part(src[i], d, j)
  {
    seq(|src|, i requires 0 <= i < |src| => Part(src[i], d, j))
  }

  /** The assignment changes only the new columns. */
  lemma {:induction false} AssignPartsFrame(t: Frame, src: seq<Cell>, d: char, newCols: seq<string>)
    requires |src| == |t.rows|
    ensures OnlyChanges(t.rows, AssignParts(t, src, d, newCols).rows, newCols)
  {
    if |newCols| > 0 {
      var k := |newCols| - 1;
      var prev := AssignParts(t, src, d, newCols[..k]);
      var r := WithColumn(prev, newCols[k], PartColumn(src, d, k));
      AssignPartsFrame(t, src, d, newCols[..k]);
      OnlyChangesTrans(t.rows, prev.rows, r.rows, newCols[..k], [newCols[k]]);
      assert newCols == newCols[..k] + [newCols[k]];
    }
  }

  /** With distinct names, each new column holds its part of the source cell. */
  lemma {:induction false} AssignPartsCells(t: Frame, src: seq<Cell>, d: char, newCols: seq<string>)
    requires |src| == |t.rows|
    requires Distinct(newCols)
    ensures var r := AssignParts(t, src, d, newCols);
      forall i, j :: 0 <= i < |t.rows| && 0 <= j < |newCols| ==> Get(r.rows[i], newCols[j]) == Part(src[i], d, j)
  {
    if |newCols| > 0 {
      var k := |newCols| - 1;
      var prev := AssignParts(t, src, d, newCols[..k]);
      var r := WithColumn(prev, newCols[k], PartColumn(src, d, k));
      assert Distinct(newCols[..k]);
      AssignPartsCells(t, src, d, newCols[..k]);
      forall i, j | 0 <= i < |t.rows| && 0 <= j < |newCols|
        ensures Get(r.rows[i], newCols[j]) == Part(src[i], d, j)
      {
        if j < k {
          assert newCols[j] == newCols[..k][j] && newCols[j] != newCols[k];
          assert Get(r.rows[i], newCols[j]) == Get(prev.rows[i], newCols[j]);
        }
      }
    }
  }

  lemma DistinctAppend(a: seq<string>, b: seq<string>)
    requires Distinct(a) && Distinct(b) && forall j :: 0 <= j < |b| ==> b[j] !in a
    ensures Distinct(a + b)
  {
    forall x, y | 0 <= x < y < |a + b| ensures (a + b)[x] != (a + b)[y] {
      if x < |a| && y >= |a| {
        assert (a + b)[y] == b[y - |a|];
        assert (a + b)[x] == a[x];
      }
    }
  }

  /** With fresh new columns appended to the frame's columns, the reorder places them right
      after the split column, in order, and keeps every other column where it was. */
  lemma FreshLayout(cols: seq<string>, colIndex: nat, newCols: seq<string>)
    requires Distinct(cols) && Distinct(newCols) && forall j :: 0 <= j < |newCols| ==> newCols[j] !in cols
    requires colIndex < |cols|
    ensures Reordered(cols + newCols, colIndex, newCols, |newCols|) == cols[..colIndex + 1] + newCols + cols[colIndex + 1..]
  {
    DistinctAppend(cols, newCols);
    ReorderedFresh(cols, colIndex, newCols, |newCols|);
    assert newCols[..|newCols|] == newCols && newCols[|newCols|..] == [];
  }

  /** The messages of the three argument checks and of pandas' width check. */
  function NoColumnError(c: string): string
  {
    "Column '" + c + "' does not exist in the DataFrame."
  }

  const FewColumnsError: string := "The list of new columns must be larger than 2 for splitting."
  const NoSymbolError: string := "You must provide symbol by which column will be split."
  const WidthError: string := "Columns must be same length as key"

  /** `split_and_insert(df, split_col, new_cols, spliter)` for a one-character `spliter`. The
      three argument checks come first, in order; then pandas refuses an expansion whose width
      differs from the number of new columns. On success the new columns hold the parts of the
      split column's cells, nothing else changes, and the columns are reordered so that the new
      ones follow the split column. */
  method SplitAndInsert(t: Frame, splitCol: string, newCols: seq<string>, spliter: Option<char>)
    returns (r: Result<Frame>)
    ensures r.Err? <==>
      || splitCol !in t.columns
      || |newCols| < 2
      || spliter.None?
      || Width(Column(t, splitCol), spliter.value) != |newCols|
    ensures splitCol !in t.columns ==>
      r == Err(NoColumnError(splitCol))
    ensures splitCol in t.columns && |newCols| < 2 ==>
      r == Err(FewColumnsError)
    ensures splitCol in t.columns && |newCols| >= 2 && spliter.None? ==>
      r == Err(NoSymbolError)
    ensures r.Ok? ==> |r.value.rows| == |t.rows|
    ensures r.Ok? ==> OnlyChanges(t.rows, r.value.rows, newCols)
    ensures r.Ok? && Distinct(newCols) ==>
      forall i, j :: 0 <= i < |t.rows| && 0 <= j < |newCols| ==>
        Get(r.value.rows[i], newCols[j]) == Part(Get(t.rows[i], splitCol), spliter.value, j)
    ensures r.Ok? ==>
      var e := AssignParts(t, Column(t, splitCol), spliter.value, newCols);
      r.value.columns == Reordered(e.columns, FirstIndex(t.columns, splitCol), newCols, |newCols|)
  {
    if splitCol !in t.columns {
      r := Err(NoColumnError(splitCol));
    } else if |newCols| < 2 {
      r := Err(FewColumnsError);
    } else if spliter.None? {
      r := Err(NoSymbolError);
    } else {
      var d := spliter.value;
      var colIndex := FirstIndex(t.columns, splitCol);
      var src := Column(t, splitCol);
      if Width(src, d) != |newCols| {
        r := Err(WidthError);
      } else {
        var e := AssignParts(t, src, d, newCols);
        var cols := ReorderColumns(e.columns, colIndex, newCols);
        r := Ok(Frame(cols, e.rows));
        AssignPartsFrame(t, src, d, newCols);
        if Distinct(newCols) {
          AssignPartsCells(t, src, d, newCols);
        }
      }
    }
  }

  /** Texts of string cells (anything else reads as the empty text). */
  function Texts(cs: seq<Cell>): (ts: seq<string>)
    ensures |ts| == |cs|
  {
    seq(|cs|, j requires 0 <= j < |cs| => if cs[j].Some? && cs[j].value.Str? then cs[j].value.s else "")
  }

  /** A string cell that splits into exactly as many parts as there are new columns is recovered
      by joining the new cells of its row with the delimiter. */
  lemma PartsRejoin(s: string, d: char, m: nat)
    requires |SplitOn(s, d)| == m
    ensures Join(Texts(seq(m, j requires 0 <= j < m => Part(Some(Str(s)), d, j))), [d]) == s
  {
    var parts := SplitOn(s, d);
    assert Texts(seq(m, j requires 0 <= j < m => Part(Some(Str(s)), d, j))) == parts;
    JoinSplit(s, d);
  }

  /** In the frame the assignment builds, a row whose source cell splits into exactly as many parts
      as there are new columns gives that cell back when its new cells are rejoined. */
  lemma AssignedRejoin(t: Frame, src: seq<Cell>, d: char, newCols: seq<string>, i: nat, s: string)
    requires |src| == |t.rows| && Distinct(newCols)
    requires i < |t.rows| && src[i] == Some(Str(s)) && |SplitOn(s, d)| == |newCols|
    ensures var r := AssignParts(t, src, d, newCols);
      Join(Texts(seq(|newCols|, j requires 0 <= j < |newCols| => Get(r.rows[i], newCols[j]))), [d]) == s
  {
    var r := AssignParts(t, src, d, newCols);
    AssignPartsCells(t, src, d, newCols);
    var m := |newCols|;
    assert seq(m, j requires 0 <= j < m => Get(r.rows[i], newCols[j])) == seq(m, j requires 0 <= j < m => Part(Some(Str(s)), d, j));
    PartsRejoin(s, d, m);
  }
}
